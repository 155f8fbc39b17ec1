# OBJ splitter model

A Dafny model of `splitObjFile` in `scripts/split_obj.js`, with proofs about it.

`splitObjFile` takes one Wavefront OBJ document whose named objects share a single 1-based
numbering of vertices (`v`), texture coordinates (`vt`) and normals (`vn`). It cuts the
document into one self-contained document per `o` line:

- every output starts with the header, i.e. the lines before the first `o` line;
- then comes the object's own segment, from its `o` line up to the next one;
- every face reference in that segment is renumbered by subtracting the element counts of
  the objects before it.

The model takes the document as the sequence of its lines (the input already split on
`\n`). The result is either "no objects found" or a list of `(objNumber, lines)` documents.

Modules:

- `JsString` (`js_string.dfy`): the ECMAScript primitives the splitter relies on.
  - `trim`, using the full `WhiteSpace` + `LineTerminator` set, which is also what `\s`
    matches;
  - `startsWith`;
  - `parseInt(s, 10)`: leading white space, an optional sign, the longest digit run, NaN as
    `None`;
  - `toString` on non-negative integers, `split('/')`, `split(/\s+/)` and `join`.
- `ObjNames` (`obj_names.dfy`): deriving a marker's number from its name.
  - the leftmost `/obj(\d+)/` match;
  - else the leftmost `/Cube(?:\.(\d+))?/` match, plus one;
  - else the marker's ordinal plus one.
- `ObjLines` (`obj_lines.dfy`): line classification by trimmed prefix (`v `, `vn `, `vt `,
  `o `, `f `, other), the lines of each kind and their counts.
- `FaceRemap` (`face_remap.dfy`): the callback passed to `vertexRefs.map`, and the rewriting
  of a whole face line.
  - The face regex `/^f\s+(.+)$/` is modelled with its backtracking.
- `Splitter` (`splitter.dfy`): specification functions for the markers, the header, the
  segments, the running counters and the files. The loops of the implementation are methods
  proved to compute those functions:
  - the marker scan;
  - the header copy;
  - the classification pass and the emission pass of each segment;
  - the loop over the objects, which advances the running counters only after an object's
    file is complete;
  - the whole split.
- `MarkerProps` (`marker_props.dfy`): what the scan guarantees.
  - Markers come out in strictly increasing line order, so the sort changes nothing.
  - Exactly the `o` lines are markers.
  - Each segment holds one marker line.
  - Each naming rule is proved for every name it applies to, stated by where its pattern
    first occurs. Two of the rules can give the same number.
- `SplitProps` (`splitter_props.dfy`): what the outputs satisfy.
  - The header and the segments partition the input.
  - The counters are prefix sums of the segments' counts.
  - Every file starts with the header, verbatim.
  - Non-face lines are copied untouched.
  - A face reference to an element of its own object is renumbered to the index of that
    same line in the object's file.
  - The files' bodies together keep every vertex, normal and texture-coordinate line of the
    input, in order.

Behaviour of the code that the model keeps as it is:

- `/obj(\d+)/` is unanchored, so any occurrence of `obj<digits>` in the name counts, not
  only a suffix.
- The counters count only the lines from the first marker on. The header's elements are
  copied into every file and precede the segment's elements both in the input and in the
  file. A reference to an element of the object's own segment therefore lands on the same
  line (`SplitProps.OwnElementSame`).
- A reference to a header element or to another object's element is still shifted whenever
  the shift stays positive. Such a reference can then point outside the object's own range,
  or at a different line. A reference whose shifted value is not positive is kept verbatim.
  So a remapped index is not bounded by the object's local count
  (`FaceRemap.RemapComponentInverse` holds for every `g > count`). The model follows the
  code here.

## Model

| member | source | states |
|---|---|---|
| JsString.TrimStartSuffix | scripts/split_obj.js:24 | the start of `trim` removes a prefix made only of white space and leaves the rest unchanged |
| JsString.TrimEndPrefix | scripts/split_obj.js:24 | the end of `trim` removes a suffix made only of white space and leaves the rest unchanged |
| JsString.Trim | scripts/split_obj.js:24 | the trimmed text has no white space at either end |
| JsString.NatToString | scripts/split_obj.js:149 | `toString` of a non-negative integer is non-empty decimal digits whose value is the number, with no leading zero except for 0 |
| JsString.ParseInt | scripts/split_obj.js:146 | `parseInt(s, 10)`: leading white space, an optional sign, the longest digit run, NaN as none; its contract is stated by `JsString.ParseIntOfDigits` and `JsString.ParseIntNatToString` |
| JsString.ParseIntNatToString | scripts/split_obj.js:146-149 | `parseInt` reads a printed non-negative integer back as itself |
| JsString.ParseIntOfDigits | scripts/split_obj.js:34 | `parseInt` of a digit string is its decimal value |
| JsString.NatToStringInjective | scripts/split_obj.js:87 | two numbers print the same exactly when they are equal |
| JsString.SplitChar | scripts/split_obj.js:142 | `split('/')`: at least one piece, and no piece holds the separator; `JsString.JoinSplitChar` and `JsString.SplitCharJoin` make it the inverse of `join` |
| JsString.Join | scripts/split_obj.js:215 | `join(sep)`; its contract is stated by `JsString.JoinSplitChar`, `JsString.SplitCharJoin` and `JsString.SplitWhiteSpaceJoin` |
| JsString.JoinSplitChar | scripts/split_obj.js:142 | joining the pieces of `split('/')` with `/` gives the reference back |
| JsString.SplitCharJoin | scripts/split_obj.js:142 | splitting a `/`-join of slash-free pieces on `/` gives the pieces back |
| JsString.StartsWith | scripts/split_obj.js:25 | `startsWith`: the text begins with the prefix; `ObjLines.NotElementLine` and `MarkerProps.MarkerKind` state what the prefix tests decide |
| JsString.SplitWhiteSpace | scripts/split_obj.js:135 | `split(/\s+/)`: at least one piece, and no piece holds white space; `JsString.SplitWhiteSpaceWords` and `JsString.SplitWhiteSpaceJoin` state its contract |
| JsString.SplitWhiteSpaceJoin | scripts/split_obj.js:135 | `split(/\s+/)` of words joined by single spaces gives the words back |
| JsString.SplitWhiteSpaceWords | scripts/split_obj.js:135 | `split(/\s+/)` of a text with non-blank ends gives non-empty words, and those words joined by single spaces are the text with every run of white space (tabs and line terminators included) collapsed to one space |
| ObjNames.FirstObjTag | scripts/split_obj.js:28 | the result is the leftmost position where `obj` followed by a digit occurs, or none when there is no such position |
| ObjNames.FirstCube | scripts/split_obj.js:29 | the result is the leftmost position where `Cube` occurs, or none when there is no such position |
| ObjNames.ObjectNumber | scripts/split_obj.js:28-50 | the marker's number: the digits of the first `obj<digits>`, else the digits of the first `Cube.<digits>` plus one (bare `Cube` counts as 0), else the ordinal plus one; its contract is stated by the four lemmas below |
| ObjNames.ObjTagNumber | scripts/split_obj.js:28-35 | a name in which `obj<digits>` first occurs after `pre`, with the digit run `ds`, is numbered by the value of `ds`, whatever the ordinal and the rest of the name |
| ObjNames.BareCubeNumber | scripts/split_obj.js:36-43 | a name in which no `obj<digit>` occurs, and whose first `Cube` is not followed by `.` and a digit, is number 1 |
| ObjNames.DottedCubeNumber | scripts/split_obj.js:36-43 | a name in which no `obj<digit>` occurs, and whose first `Cube` is `Cube.<digits>`, is numbered by the digits' value plus one |
| ObjNames.PlainNameNumber | scripts/split_obj.js:44-50 | a name in which neither `obj<digit>` nor `Cube` occurs is numbered by the count of markers found before it, plus one |
| ObjNames.ObjTagExample | scripts/split_obj.js:28-35 | `Body_obj2` is number 2 |
| ObjNames.BareCubeExample | scripts/split_obj.js:36-43 | `Cube_top` is number 1 |
| ObjNames.DottedCubeExample | scripts/split_obj.js:36-43 | `Col_Cube.003` is number 4 |
| ObjNames.PlainNameExample | scripts/split_obj.js:44-50 | `Cone` is numbered by its ordinal plus one |
| ObjLines.Kind | scripts/split_obj.js:99-117 | the kind of a line, from its trimmed text: the prefixes `v `, `vn `, `vt `, `o `, `f ` are tested in that order; `MarkerProps.MarkerKind` and `ObjLines.NotElementLine` state its contract |
| ObjLines.KindLinesAppend | scripts/split_obj.js:97-118 | the lines of one kind in a concatenation are those of each part, in order |
| ObjLines.CountsOfAppend | scripts/split_obj.js:230-232 | the element counts of a concatenation are the sums of the parts' counts |
| ObjLines.NotElementLine | scripts/split_obj.js:101-109 | a line whose first character is not blank and not `v` is not a vertex, normal or texture-coordinate line |
| FaceRemap.RemapComponent | scripts/split_obj.js:146-206 | one slot against the running count of its kind; its contract is stated by `FaceRemap.RemapComponentSpec`, `FaceRemap.RemapComponentInverse` and `FaceRemap.RemapShift` |
| FaceRemap.RemapComponentSpec | scripts/split_obj.js:146-149 | a slot whose value `n` exceeds the count becomes digits that `parseInt` reads as `n - count`; any other slot (NaN, empty, not positive after the shift) is kept verbatim; an empty slot stays empty |
| FaceRemap.RemapComponentInverse | scripts/split_obj.js:156-158 | for a document-wide index `g > count`, the slot becomes the text of `g - count`, and adding the count back gives `g` |
| FaceRemap.RemapShift | scripts/split_obj.js:148-149 | an index `n > 0`, shifted up by a count and then remapped against that count, comes back as `n` |
| FaceRemap.RemapRefs | scripts/split_obj.js:136-213 | `vertexRefs.map` of the callback: one remapped reference per reference, in order; `FaceRemap.RemapFaceLineOfRefs` and `FaceRemap.RemapFaceLineOfText` state its use |
| FaceRemap.RemapRef | scripts/split_obj.js:136-213 | the callback given to `vertexRefs.map`; its contract is stated by `FaceRemap.RemapRefShape` and `FaceRemap.RemapRefOne`, `RemapRefTwo` and `RemapRefThree` |
| FaceRemap.RemapRefShape | scripts/split_obj.js:142-212 | a reference with at most three `/`-slots keeps its slot count; slot `p` is remapped against the count of its own kind (`v`, `vt`, `vn`), so an empty slot stays empty; a reference with more than three slots is returned unchanged |
| FaceRemap.RemapRefOne | scripts/split_obj.js:144-149 | a one-slot reference is its slot remapped against the vertex count |
| FaceRemap.RemapRefTwo | scripts/split_obj.js:150-172 | a `v/vt` reference is its two slots, each remapped against its own count, rejoined with `/` |
| FaceRemap.RemapRefThree | scripts/split_obj.js:173-209 | a `v/vt/vn` reference is its three slots, each remapped against its own count, rejoined with `/` |
| FaceRemap.TryCapture | scripts/split_obj.js:131 | the backtracking of `\s+` in `/^f\s+(.+)$/`: the capture starts at the latest position from which `(.+)$` matches; its contract is stated by `FaceRemap.FaceMatchOfBody` and `FaceRemap.TryCaptureFails` |
| FaceRemap.TryCaptureFails | scripts/split_obj.js:131 | no capture that starts at or before a line terminator can reach the end, so backtracking down to the first blank finds no match |
| FaceRemap.FaceMatch | scripts/split_obj.js:131 | `match(/^f\s+(.+)$/)` on the trimmed line, giving the captured group; its contract is stated by `FaceRemap.FaceMatchOfBody` |
| FaceRemap.FaceMatchOfBody | scripts/split_obj.js:131 | on `f`, any non-empty run of blanks, then a text that starts with no blank, `/^f\s+(.+)$/` captures that whole text when it holds no line terminator, and does not match when it holds one |
| FaceRemap.RemapFaceLine | scripts/split_obj.js:130-218 | one face line: `f ` and the remapped references joined by single spaces, or the line unchanged when it does not match the face pattern; its contract is stated by `FaceRemap.RemapFaceLineOfText`, `FaceRemap.RemapFaceLineOfRefs` and `SplitProps.EmitLineCases` |
| FaceRemap.RemapFaceLineOfRefs | scripts/split_obj.js:130-135 | a face line whose trimmed text is `f` and space-separated references (so also with indentation or a trailing `\r`) becomes `f ` followed by the remapped references joined by single spaces |
| FaceRemap.RemapFaceLineOfText | scripts/split_obj.js:130-218 | any face line whose trimmed text is `f`, blanks, then a text starting with no blank: without a line terminator in that text, its references are the text's words (each run of blanks, tabs included, read as one separator), and the line becomes `f ` and those words remapped, joined by single spaces; with one, the line is kept |
| Splitter.IsMarkerLine | scripts/split_obj.js:24-25 | the scan's test, the trimmed line starts with `o `; `Splitter.ScanUpToComplete`, `MarkerProps.NoMarkersIff` and `MarkerProps.MarkerKind` state its contract |
| Splitter.MarkerName | scripts/split_obj.js:26 | `line.substring(2).trim()` of the trimmed `o` line; `Splitter.ScanUpToMarker` states that every marker carries it |
| Splitter.Markers | scripts/split_obj.js:22-53 | the markers of the whole document; `Splitter.ScanUpTo`, `Splitter.ScanUpToMarker` and `Splitter.ScanUpToComplete` state its contract |
| Splitter.ScanUpTo | scripts/split_obj.js:22-53 | the collected markers lie inside the scanned lines and their line indices strictly increase |
| Splitter.ScanUpToMarker | scripts/split_obj.js:24-50 | every collected marker sits at a line whose trimmed text starts with `o `, carries the trimmed text after it as its name, and is numbered from that name and the count of markers before it |
| Splitter.ScanUpToComplete | scripts/split_obj.js:23-25 | every `o` line among the scanned lines has been collected |
| Splitter.ScanUpToGrows | scripts/split_obj.js:25-52 | one more line keeps the markers found so far; an `o` line adds exactly one marker, at that line, and any other line leaves the list unchanged |
| Splitter.ScanMarkers | scripts/split_obj.js:22-53 | the scan loop yields the markers, in strictly increasing line order and inside the document |
| Splitter.ExtractHeader | scripts/split_obj.js:69-72 | the header is exactly the lines before the first marker |
| Splitter.Header | scripts/split_obj.js:69-72 | the lines before the first marker; `Splitter.ExtractHeader` and `SplitProps.HeaderPrefix` state its contract |
| Splitter.SegmentLines | scripts/split_obj.js:79-83 | the lines from marker `i` up to the next marker, or to the end; `SplitProps.PartitionCoverage` and `MarkerProps.SegmentShape` state its contract |
| Splitter.CountersBefore | scripts/split_obj.js:75-77 | the running counters for object `i`; `Splitter.CountersStart`, `Splitter.CountersStep` and `SplitProps.CountersArePrefixSums` state its contract |
| Splitter.CountersStart | scripts/split_obj.js:75-77 | the counters start at zero for the first object |
| Splitter.CountersStep | scripts/split_obj.js:229-232 | after object `i`, the counters advance by exactly that object's own counts |
| Splitter.EmitLine | scripts/split_obj.js:127-222 | one line of the second pass; `SplitProps.EmitLineCases` and `SplitProps.EmitKeepsElements` state its contract |
| Splitter.EmitSegment | scripts/split_obj.js:127-223 | the second pass over a segment, line by line, as many lines as the segment; `Splitter.AssembleSegment`, `SplitProps.EmitSegmentElements` and `SplitProps.FileLayout` state its contract |
| Splitter.FileFor | scripts/split_obj.js:79-124 | the document for marker `i`: its number, the header, then the emitted segment; `SplitProps.HeaderPrefix`, `SplitProps.FileLayout` and `SplitProps.OwnElementSame` state its contract |
| Splitter.SplitLines | scripts/split_obj.js:22-233 | the outcome of the whole split; `Splitter.SplitObjFile`, `MarkerProps.NoMarkersIff` and `SplitProps.ElementsPreserved` state its contract |
| Splitter.FilesUpTo | scripts/split_obj.js:79-233 | the documents the object loop writes for the first `n` markers; `Splitter.FilesUpToAt` and `Splitter.EmitObjects` state its contract |
| Splitter.FilesUpToAt | scripts/split_obj.js:79-88 | the `k`-th document is the one for marker `k`, named by its number |
| Splitter.SegmentStep | scripts/split_obj.js:97-118 | one more line extends the classification by that line's item and adds its kind to the counts |
| Splitter.Classify | scripts/split_obj.js:96-118 | the first pass's list of items, each line with its kind; `Splitter.SegmentStep` and `Splitter.ClassifySegment` state its contract |
| Splitter.ClassifySegment | scripts/split_obj.js:96-118 | the first pass gives every line of `[start, end)` with its kind, in order, and the segment's vertex, normal and texture-coordinate counts |
| Splitter.AssembleSegment | scripts/split_obj.js:121-223 | the second pass over the first pass's items gives the header followed by the emitted segment: face lines rewritten against the counters, all other lines unchanged |
| Splitter.EmitObject | scripts/split_obj.js:79-223 | one iteration writes the marker's number with the header and the emitted segment, and returns the segment's own counts |
| Splitter.SplitStep | scripts/split_obj.js:226-232 | after an iteration, the files are those for markers `0..i`, and the counters are those before object `i + 1` |
| Splitter.EmitObjects | scripts/split_obj.js:74-233 | the object loop writes one document per marker, in marker order, each against the counters of the objects before it |
| Splitter.SplitObjFile | scripts/split_obj.js:22-233 | the whole procedure computes the split of the document |
| MarkerProps.SortedPermutationUnique | scripts/split_obj.js:56 | a list whose line indices strictly increase has exactly one rearrangement sorted by line index: itself |
| MarkerProps.SortIsNoOp | scripts/split_obj.js:56 | every rearrangement of the scanned markers that is sorted by line index is the scanned list itself, so the sort changes nothing |
| MarkerProps.NoMarkersIff | scripts/split_obj.js:58-61 | the split reports "no objects" exactly when no line is an `o` line; otherwise it yields one document per marker |
| MarkerProps.MarkerKind | scripts/split_obj.js:25 | a line is an `o` line for the scan exactly when the segment pass classifies it as an object line |
| MarkerProps.HeaderHasNoMarker | scripts/split_obj.js:69-72 | no header line is an `o` line |
| MarkerProps.NoMarkerInside | scripts/split_obj.js:79-83 | no marker lies strictly inside a segment |
| MarkerProps.SegmentShape | scripts/split_obj.js:79-83 | each segment starts with its own `o` line, and none of its other lines is an `o` line |
| Splitter.OutputFileName | scripts/split_obj.js:87 | `${baseName}_${objNumber}.obj`; `MarkerProps.OutputFileNameInjective` and `MarkerProps.NumberCollision` state its contract |
| MarkerProps.OutputFileNameInjective | scripts/split_obj.js:87 | two output names for one base name are equal exactly when the object numbers are equal |
| MarkerProps.NumberCollision | scripts/split_obj.js:28-43 | `obj1` and a bare `Cube` both get number 1, so their files share one name |
| SplitProps.SegmentsUpToSlice | scripts/split_obj.js:79-83 | the first `n` segments, one after the other, are exactly the lines from the first marker up to where segment `n` starts, with no gap and no overlap |
| SplitProps.AllSegments | scripts/split_obj.js:79-83 | all segments together are everything from the first marker on |
| SplitProps.PartitionCoverage | scripts/split_obj.js:69-83 | the header followed by every segment, in order, is the whole input |
| SplitProps.CountersArePrefixSums | scripts/split_obj.js:75-77 | the counters in force for object `i` are the element counts of segments `0..i-1` |
| SplitProps.CountersBeforeOf | scripts/split_obj.js:101-109 | the running count of one element kind for object `i` is the number of such lines from the first marker up to segment `i` |
| SplitProps.EmitKeepsElements | scripts/split_obj.js:217-221 | emitting a line never makes it an element line or stops it being one, and an element line is emitted unchanged |
| SplitProps.EmitSegmentElements | scripts/split_obj.js:127-223 | a segment and its emitted form have the same element lines, in the same order |
| SplitProps.FileElements | scripts/split_obj.js:124 | the element lines of an output file are the header's, then those of the object's own segment |
| SplitProps.WindowElements | scripts/split_obj.js:97 | the element lines of a window of the document follow, in the document's list, those of the lines before the window |
| SplitProps.ElementsBeforeSegment | scripts/split_obj.js:75-77 | the header's element count plus the running count equals the number of element lines before the segment's first line |
| SplitProps.OwnElementInInput | scripts/split_obj.js:148 | element `r` of object `i` is element `h + cnt + r` of the input, where `h` is the header's count and `cnt` the running count |
| SplitProps.OwnElementInFile | scripts/split_obj.js:124 | element `r` of object `i` is element `h + r` of its file |
| SplitProps.OwnElementSame | scripts/split_obj.js:146-158 | the face reference `h + cnt + r + 1`, which names element `r` of object `i` in the input, is rewritten to `h + r + 1`, which names the same line in the object's file |
| SplitProps.HeaderPrefix | scripts/split_obj.js:124 | every output file starts with the header lines, verbatim, followed by the emitted segment, which has as many lines as the segment |
| SplitProps.EmitLineCases | scripts/split_obj.js:216-221 | a non-face line is emitted unchanged; a face line whose trimmed text does not match `^f\s+(.+)$` is emitted unchanged; any other face line is rewritten |
| SplitProps.FileLayout | scripts/split_obj.js:127-223 | line `j` of a segment is line `header + j` of its file: verbatim unless it is a face line, and a face line is rewritten against the counters before the object, or kept when it does not match the face pattern |
| SplitProps.BodiesStep | scripts/split_obj.js:121-124 | after the header, one more file adds exactly the emitted segment |
| SplitProps.BodiesElements | scripts/split_obj.js:97-124 | the non-header lines of the first `n` files hold the element lines of the first `n` segments, in order |
| SplitProps.AllBodiesElements | scripts/split_obj.js:97-124 | the non-header lines of all files hold the element lines of everything from the first marker on |
| SplitProps.ElementsPreserved | scripts/split_obj.js:79-233 | concatenating what follows the header in every output gives the input's vertex, normal and texture-coordinate lines after the header, in their original order |

## Left out

- File I/O: reading the input and splitting it on `\n` happen before the modelled part; writing each document, `join('\n')` included, happens after it. The model starts from the lines and ends with the list of documents.
- Console output: the "No objects found" message, the list of markers and the per-file summary are not modelled. The no-objects case is the `NoObjectsFound` outcome.
- Output directories: `path.dirname`, `path.basename`, `path.extname` and `path.join` are not modelled. The output file name is stated as `base + "_" + objNumber + ".obj"`, for a given base name.
- Overwrites: when two markers share a number, their files share a name, and the later write replaces the earlier one. This is filesystem behaviour. `MarkerProps.NumberCollision` shows the names collide.
- The command-line entry point and its argument handling are not modelled.
- The `originalLine` field of a classified line is never read by the code, so the model's items omit it.
- ObjNames.ObjectNumber: JavaScript numbers are IEEE doubles. A digit string above 2^53 loses precision in `parseInt`, but the model reads it as an exact unbounded integer.
- FaceRemap.RemapComponent: face indices go through the same `parseInt` and `toString`. An index above 2^53 loses precision in JavaScript, but the model computes with exact integers.
- JsString.NatToString: `toString` switches to exponent notation at 10^21. The model always prints plain digits.
- `parseInt("-0")` gives negative zero in JavaScript. Every comparison the code makes treats it as 0, and so does the model.
- The page components, the WebGL scene wrapper and the scroll arithmetic of the site are not part of this model.
