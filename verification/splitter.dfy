/** The OBJ splitter: one OBJ document whose named objects share a single
    1-based vertex / texture-coordinate / normal numbering is cut into one
    self-contained document per `o` line, each face reference renumbered
    against the elements of the objects before it.

    The specification functions (Markers, Header, SegmentLines,
    CountersBefore, FileFor, SplitLines) describe the result; the methods
    (ScanMarkers, ExtractHeader, ClassifySegment, AssembleSegment,
    SplitObjFile) follow the loops of the implementation and are proved to
    compute it. */
module Splitter {
  import opened JsString
  import opened ObjNames
  import opened ObjLines
  import opened FaceRemap

  /** An `o` line: its index, the name after `o `, and the number derived
      from the name. */
  datatype Marker = Marker(lineIndex: nat, objName: string, objNumber: nat)

  /** One output document and the number that names its file. */
  datatype ObjFile = ObjFile(objNumber: nat, lines: seq<string>)

  /** No `o` line at all is reported and produces no file. */
  datatype SplitOutcome = NoObjectsFound | Split(files: seq<ObjFile>)

  /** One classified line of a segment. */
  datatype Item = Item(kind: LineKind, line: string)

  predicate IsMarkerLine(line: string) {
    StartsWith(Trim(line), "o ")
  }

  /** `line.substring(2).trim()` of the trimmed line. */
  function MarkerName(line: string): string
    requires IsMarkerLine(line)
  {
    Trim(Trim(line)[2..])
  }

  /** The markers the scan has collected after looking at the first `n`
      lines: in strictly increasing line order, each at an `o` line and
      numbered from its name and its position in the list. */
  function ScanUpTo(lines: seq<string>, n: nat): (ms: seq<Marker>)
    requires n <= |lines|
    ensures forall k :: 0 <= k < |ms| ==> ms[k].lineIndex < n
    ensures forall k, l :: 0 <= k < l < |ms| ==> ms[k].lineIndex < ms[l].lineIndex
  {
    if n == 0 then []
    else
      var ms := ScanUpTo(lines, n - 1);
      var line := lines[n - 1];
      if IsMarkerLine(line) then
        var name := MarkerName(line);
        var r := ms + [Marker(n - 1, name, ObjectNumber(name, |ms|))];
        assert r[|ms|].lineIndex == n - 1;
        r
      else ms
  }

  /** Each collected marker sits at an `o` line, carries the name after
      `o ` and is numbered from that name and the count of markers before it. */
  lemma {:induction false} ScanUpToMarker(lines: seq<string>, n: nat, k: nat)
    requires n <= |lines| && k < |ScanUpTo(lines, n)|
    ensures var m := ScanUpTo(lines, n)[k];
      && IsMarkerLine(lines[m.lineIndex])
      && m.objName == MarkerName(lines[m.lineIndex])
      && m.objNumber == ObjectNumber(m.objName, k)
    decreases n
  {
    var ms := ScanUpTo(lines, n - 1);
    if k < |ms| {
      ScanUpToMarker(lines, n - 1, k);
      assert ScanUpTo(lines, n)[k] == ms[k];
    }
  }

  /** Every `o` line among the first `n` lines has been collected. */
  lemma {:induction false} ScanUpToComplete(lines: seq<string>, n: nat, j: nat)
    requires j < n <= |lines| && IsMarkerLine(lines[j])
    ensures exists k :: 0 <= k < |ScanUpTo(lines, n)| && ScanUpTo(lines, n)[k].lineIndex == j
    decreases n
  {
    ScanUpToGrows(lines, n);
    var ms, ms' := ScanUpTo(lines, n - 1), ScanUpTo(lines, n);
    if j < n - 1 {
      ScanUpToComplete(lines, n - 1, j);
      var k :| 0 <= k < |ms| && ms[k].lineIndex == j;
      assert ms'[k] == ms[k];
    } else {
      assert ms'[|ms|].lineIndex == j;
    }
  }

  /** One more line keeps the markers found so far and adds one exactly
      when the line is an `o` line. */
  lemma ScanUpToGrows(lines: seq<string>, n: nat)
    requires 0 < n <= |lines|
    ensures |ScanUpTo(lines, n - 1)| <= |ScanUpTo(lines, n)|
    ensures forall k :: 0 <= k < |ScanUpTo(lines, n - 1)| ==> ScanUpTo(lines, n)[k] == ScanUpTo(lines, n - 1)[k]
    ensures IsMarkerLine(lines[n - 1]) ==>
      |ScanUpTo(lines, n)| == |ScanUpTo(lines, n - 1)| + 1
      && ScanUpTo(lines, n)[|ScanUpTo(lines, n - 1)|].lineIndex == n - 1
    ensures !IsMarkerLine(lines[n - 1]) ==> ScanUpTo(lines, n) == ScanUpTo(lines, n - 1)
  {
  }

  function Markers(lines: seq<string>): seq<Marker> {
    ScanUpTo(lines, |lines|)
  }

  predicate StrictlyIncreasing(ms: seq<Marker>) {
    forall k, l :: 0 <= k < l < |ms| ==> ms[k].lineIndex < ms[l].lineIndex
  }

  /** Marker positions strictly increase and stay inside the document. */
  predicate ValidMarkers(ms: seq<Marker>, n: nat) {
    && (forall k :: 0 <= k < |ms| ==> ms[k].lineIndex < n)
    && StrictlyIncreasing(ms)
  }

  /** Where segment `i` stops: the next marker, or the end of the document. */
  function SegmentEnd(ms: seq<Marker>, i: nat, n: nat): nat
    requires i < |ms|
  {
    if i < |ms| - 1 then ms[i + 1].lineIndex else n
  }

  /** The lines `[marker_i, marker_{i+1})`, or to the end for the last marker. */
  function SegmentLines(lines: seq<string>, ms: seq<Marker>, i: nat): seq<string>
    requires ValidMarkers(ms, |lines|) && i < |ms|
  {
    lines[ms[i].lineIndex..SegmentEnd(ms, i, |lines|)]
  }

  /** Every line before the first marker. */
  function Header(lines: seq<string>, ms: seq<Marker>): seq<string>
    requires ValidMarkers(ms, |lines|) && |ms| > 0
  {
    lines[..ms[0].lineIndex]
  }

  /** Where segment `i` starts; one past the last segment is the end of the document. */
  function SegmentStart(ms: seq<Marker>, i: nat, n: nat): nat
    requires i <= |ms|
  {
    if i < |ms| then ms[i].lineIndex else n
  }

  /** The running counters when segment `i` is reached: the element counts
      of every line from the first marker up to where segment `i` starts. */
  function CountersBefore(lines: seq<string>, ms: seq<Marker>, i: nat): Counts
    requires ValidMarkers(ms, |lines|) && 0 < |ms| && i <= |ms|
  {
    CountsOf(lines[ms[0].lineIndex..SegmentStart(ms, i, |lines|)])
  }

  /** No counts before the first segment. */
  lemma CountersStart(lines: seq<string>, ms: seq<Marker>)
    requires ValidMarkers(ms, |lines|) && 0 < |ms|
    ensures CountersBefore(lines, ms, 0) == Zero
  {
    assert lines[ms[0].lineIndex..ms[0].lineIndex] == [];
  }

  /** Passing segment `i` advances the counters by exactly its own counts. */
  lemma CountersStep(lines: seq<string>, ms: seq<Marker>, i: nat)
    requires ValidMarkers(ms, |lines|) && i < |ms|
    ensures CountersBefore(lines, ms, i + 1)
      == CountersBefore(lines, ms, i).Plus(CountsOf(SegmentLines(lines, ms, i)))
  {
    var a, b, e := ms[0].lineIndex, ms[i].lineIndex, SegmentEnd(ms, i, |lines|);
    assert SegmentStart(ms, i + 1, |lines|) == e;
    assert lines[a..e] == lines[a..b] + lines[b..e];
    CountsOfAppend(lines[a..b], lines[b..e]);
  }

  /** A line as the second pass emits it: a face line is rewritten, every
      other line is kept as it was, untrimmed. */
  function EmitLine(line: string, c: Counts): string {
    if Kind(line) == Face then RemapFaceLine(line, c) else line
  }

  function EmitSegment(seg: seq<string>, c: Counts): (r: seq<string>)
    ensures |r| == |seg|
  {
    seq(|seg|, j requires 0 <= j < |seg| => EmitLine(seg[j], c))
  }

  /** The document written for marker `i`: the header, then its segment
      with faces renumbered against the counters before it. */
  function FileFor(lines: seq<string>, ms: seq<Marker>, i: nat): ObjFile
    requires ValidMarkers(ms, |lines|) && i < |ms|
  {
    ObjFile(ms[i].objNumber,
      Header(lines, ms) + EmitSegment(SegmentLines(lines, ms, i), CountersBefore(lines, ms, i)))
  }

  /** The documents for the first `n` markers. */
  function FilesUpTo(lines: seq<string>, ms: seq<Marker>, n: nat): (fs: seq<ObjFile>)
    requires ValidMarkers(ms, |lines|) && n <= |ms|
    ensures |fs| == n
  {
    if n == 0 then [] else FilesUpTo(lines, ms, n - 1) + [FileFor(lines, ms, n - 1)]
  }

  /** The `k`-th document is the one for marker `k`. */
  lemma {:induction false} FilesUpToAt(lines: seq<string>, ms: seq<Marker>, n: nat, k: nat)
    requires ValidMarkers(ms, |lines|) && k < n <= |ms|
    ensures FilesUpTo(lines, ms, n)[k] == FileFor(lines, ms, k)
    decreases n
  {
    if k < n - 1 {
      FilesUpToAt(lines, ms, n - 1, k);
      FilesUpToKeeps(lines, ms, n, k);
    } else {
      FilesUpToLast(lines, ms, n);
    }
  }

  /** One more document leaves the earlier ones as they were. */
  lemma FilesUpToKeeps(lines: seq<string>, ms: seq<Marker>, n: nat, k: nat)
    requires ValidMarkers(ms, |lines|) && k < n - 1 && n <= |ms|
    ensures FilesUpTo(lines, ms, n)[k] == FilesUpTo(lines, ms, n - 1)[k]
  {
  }

  lemma FilesUpToLast(lines: seq<string>, ms: seq<Marker>, n: nat)
    requires ValidMarkers(ms, |lines|) && 0 < n <= |ms|
    ensures FilesUpTo(lines, ms, n)[n - 1] == FileFor(lines, ms, n - 1)
  {
  }

  /** What splitting a document produces. */
  function SplitLines(lines: seq<string>): SplitOutcome {
    var ms := Markers(lines);
    if |ms| == 0 then NoObjectsFound
    else Split(FilesUpTo(lines, ms, |ms|))
  }

  function Classify(seg: seq<string>): seq<Item> {
    seq(|seg|, j requires 0 <= j < |seg| => Item(Kind(seg[j]), seg[j]))
  }

  /** `${baseName}_${objNumber}.obj`. */
  function OutputFileName(baseName: string, objNumber: nat): string {
    baseName + "_" + NatToString(objNumber) + ".obj"
  }

  // ---------------------------------------------------------------------
  // The loops of the implementation

  /** The marker scan: every line whose trimmed text starts with `o ` is
      appended, numbered from its name and the markers found so far. */
  method ScanMarkers(lines: seq<string>) returns (markers: seq<Marker>)
    ensures markers == Markers(lines)
    ensures ValidMarkers(markers, |lines|)
  {
    markers := [];
    for i := 0 to |lines|
      invariant markers == ScanUpTo(lines, i)
    {
      var line := Trim(lines[i]);
      if StartsWith(line, "o ") {
        var objName := Trim(line[2..]);
        markers := markers + [Marker(i, objName, ObjectNumber(objName, |markers|))];
      }
    }
  }

  /** Copies the lines before the first marker. */
  method ExtractHeader(lines: seq<string>, first: nat) returns (header: seq<string>)
    requires first <= |lines|
    ensures header == lines[..first]
  {
    header := [];
    for i := 0 to first
      invariant header == lines[..i]
    {
      header := header + [lines[i]];
    }
  }

  /** What one line of kind `k` adds to the counts. */
  function Tally(k: LineKind): Counts {
    Counts(if k == Vertex then 1 else 0, if k == Normal then 1 else 0, if k == TexCoord then 1 else 0)
  }

  lemma CountsOfSnoc(s: seq<string>, line: string)
    ensures CountsOf(s + [line]) == CountsOf(s).Plus(Tally(Kind(line)))
  {
    CountsOfAppend(s, [line]);
    assert [line][..0] == [];
  }

  lemma ClassifySnoc(s: seq<string>, line: string)
    ensures Classify(s + [line]) == Classify(s) + [Item(Kind(line), line)]
  {
  }

  /** Growing the window `lines[start..j]` by one line. */
  lemma SegmentStep(lines: seq<string>, start: nat, j: nat)
    requires start <= j < |lines|
    ensures Classify(lines[start..j + 1]) == Classify(lines[start..j]) + [Item(Kind(lines[j]), lines[j])]
    ensures CountsOf(lines[start..j + 1]) == CountsOf(lines[start..j]).Plus(Tally(Kind(lines[j])))
  {
    assert lines[start..j + 1] == lines[start..j] + [lines[j]];
    ClassifySnoc(lines[start..j], lines[j]);
    CountsOfSnoc(lines[start..j], lines[j]);
  }

  /** The first pass over one segment: classify each line and count the
      vertex, normal and texture-coordinate lines. */
  method ClassifySegment(lines: seq<string>, start: nat, end: nat)
    returns (items: seq<Item>, localV: nat, localVn: nat, localVt: nat)
    requires start <= end <= |lines|
    ensures items == Classify(lines[start..end])
    ensures Counts(localV, localVn, localVt) == CountsOf(lines[start..end])
  {
    items := [];
    localV, localVn, localVt := 0, 0, 0;
    for j := start to end
      invariant items == Classify(lines[start..j])
      invariant localV == Count(lines[start..j], Vertex)
      invariant localVn == Count(lines[start..j], Normal)
      invariant localVt == Count(lines[start..j], TexCoord)
    {
      var line := lines[j];
      var kind := Kind(line);
      ghost var before := Counts(localV, localVn, localVt);
      if kind == Vertex {
        localV := localV + 1;
      } else if kind == Normal {
        localVn := localVn + 1;
      } else if kind == TexCoord {
        localVt := localVt + 1;
      }
      items := items + [Item(kind, line)];
      assert Counts(localV, localVn, localVt) == before.Plus(Tally(kind));
      SegmentStep(lines, start, j);
    }
  }

  /** The second pass over one segment: the header, then each item of the
      first pass, face lines rewritten against the counters before the
      segment; this is the header followed by the emitted segment. */
  method AssembleSegment(header: seq<string>, ghost seg: seq<string>, items: seq<Item>, c: Counts)
    returns (out: seq<string>)
    requires items == Classify(seg)
    ensures out == header + EmitSegment(seg, c)
  {
    out := header;
    for j := 0 to |items|
      invariant out == header + EmitSegment(seg, c)[..j]
    {
      var item := items[j];
      if item.kind == Face {
        out := out + [RemapFaceLine(item.line, c)];
      } else {
        out := out + [item.line];
      }
      AssembleStep(seg, items, c, j);
    }
    assert EmitSegment(seg, c)[..|items|] == EmitSegment(seg, c);
  }

  /** Emitting item `j` of the first pass extends the emitted segment by one line. */
  lemma AssembleStep(seg: seq<string>, items: seq<Item>, c: Counts, j: nat)
    requires items == Classify(seg) && j < |items|
    ensures EmitSegment(seg, c)[..j + 1] == EmitSegment(seg, c)[..j]
      + [if items[j].kind == Face then RemapFaceLine(items[j].line, c) else items[j].line]
  {
    assert EmitSegment(seg, c)[..j + 1] == EmitSegment(seg, c)[..j] + [EmitLine(seg[j], c)];
  }

  /** One iteration of the split: the document for marker `i`, written
      against the counters `c`, and the element counts of its segment. */
  method EmitObject(lines: seq<string>, markers: seq<Marker>, i: nat, header: seq<string>, c: Counts)
    returns (file: ObjFile, local: Counts)
    requires ValidMarkers(markers, |lines|) && i < |markers|
    ensures file == ObjFile(markers[i].objNumber, header + EmitSegment(SegmentLines(lines, markers, i), c))
    ensures local == CountsOf(SegmentLines(lines, markers, i))
  {
    var startLine := markers[i].lineIndex;
    var endLine := if i < |markers| - 1 then markers[i + 1].lineIndex else |lines|;
    var items, localV, localVn, localVt := ClassifySegment(lines, startLine, endLine);
    var out := AssembleSegment(header, lines[startLine..endLine], items, c);
    file := ObjFile(markers[i].objNumber, out);
    local := Counts(localV, localVn, localVt);
  }

  /** What one iteration adds: the next document and the next counters. */
  lemma SplitStep(lines: seq<string>, ms: seq<Marker>, i: nat, c: Counts, file: ObjFile, local: Counts)
    requires ValidMarkers(ms, |lines|) && i < |ms|
    requires c == CountersBefore(lines, ms, i)
    requires file == ObjFile(ms[i].objNumber, Header(lines, ms) + EmitSegment(SegmentLines(lines, ms, i), c))
    requires local == CountsOf(SegmentLines(lines, ms, i))
    ensures FilesUpTo(lines, ms, i + 1) == FilesUpTo(lines, ms, i) + [file]
    ensures CountersBefore(lines, ms, i + 1) == c.Plus(local)
  {
    CountersStep(lines, ms, i);
  }

  /** The loop over the markers: emit each object's document, and only
      afterwards add its counts to the running counters. */
  method EmitObjects(lines: seq<string>, markers: seq<Marker>, header: seq<string>)
    returns (files: seq<ObjFile>)
    requires ValidMarkers(markers, |lines|) && 0 < |markers|
    requires header == Header(lines, markers)
    ensures files == FilesUpTo(lines, markers, |markers|)
  {
    var global := Zero;
    CountersStart(lines, markers);
    files := [];
    for i := 0 to |markers|
      invariant global == CountersBefore(lines, markers, i)
      invariant files == FilesUpTo(lines, markers, i)
    {
      var file, local := EmitObject(lines, markers, i, header, global);
      SplitStep(lines, markers, i, global, file, local);
      files := files + [file];
      global := global.Plus(local);
    }
  }

  /** The whole split: scan the markers, report a document without any,
      otherwise copy the header and emit one document per marker. */
  method SplitObjFile(lines: seq<string>) returns (outcome: SplitOutcome)
    ensures outcome == SplitLines(lines)
  {
    var markers := ScanMarkers(lines);
    if |markers| == 0 {
      return NoObjectsFound;
    }
    var header := ExtractHeader(lines, markers[0].lineIndex);
    var files := EmitObjects(lines, markers, header);
    outcome := Split(files);
  }
}
