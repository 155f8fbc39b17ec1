/** Line classification of an OBJ document and the per-kind element counts. */
module ObjLines {
  import opened JsString

  /** What a line is, decided on its trimmed text. */
  datatype LineKind = Vertex | Normal | TexCoord | ObjectMarker | Face | Other {
    /** The kinds that face references index into. */
    predicate IsElement() {
      this == Vertex || this == Normal || this == TexCoord
    }
  }

  /** The classification of the per-object pass: the trimmed line is tested
      for the prefixes `v `, `vn `, `vt `, `o `, `f `, in that order. */
  function Kind(line: string): LineKind {
    var t := Trim(line);
    if StartsWith(t, "v ") then Vertex
    else if StartsWith(t, "vn ") then Normal
    else if StartsWith(t, "vt ") then TexCoord
    else if StartsWith(t, "o ") then ObjectMarker
    else if StartsWith(t, "f ") then Face
    else Other
  }

  /** The lines of kind `k`, in document order; the i-th of them is what a
      1-based index i of that kind refers to. */
  function KindLines(lines: seq<string>, k: LineKind): (r: seq<string>)
    ensures |r| <= |lines|
  {
    if lines == [] then []
    else
      var last := lines[|lines| - 1];
      KindLines(lines[..|lines| - 1], k) + (if Kind(last) == k then [last] else [])
  }

  function Count(lines: seq<string>, k: LineKind): nat {
    |KindLines(lines, k)|
  }

  /** Vertex, normal and texture-coordinate counts. */
  datatype Counts = Counts(v: nat, vn: nat, vt: nat) {
    function Of(k: LineKind): nat {
      match k
      case Vertex => v
      case Normal => vn
      case TexCoord => vt
      case _ => 0
    }

    function Plus(other: Counts): Counts {
      Counts(v + other.v, vn + other.vn, vt + other.vt)
    }
  }

  const Zero := Counts(0, 0, 0)

  function CountsOf(lines: seq<string>): Counts {
    Counts(Count(lines, Vertex), Count(lines, Normal), Count(lines, TexCoord))
  }

  /** The count of an element kind is the number of its lines. */
  lemma CountsOfKind(lines: seq<string>, k: LineKind)
    requires k.IsElement()
    ensures CountsOf(lines).Of(k) == |KindLines(lines, k)|
  {
  }

  /** A line that starts with a character other than `v` (once trimmed) is no element line. */
  lemma NotElementLine(line: string, k: LineKind)
    requires k.IsElement()
    requires line != [] && !IsWhiteSpace(line[0]) && line[0] != 'v'
    ensures Kind(line) != k
  {
    TrimKeepsFirst(line);
  }

  lemma KindLinesSnoc(s: seq<string>, x: string, k: LineKind)
    ensures KindLines(s + [x], k) == KindLines(s, k) + KindLines([x], k)
  {
    assert (s + [x])[..|s|] == s;
    assert [x][..0] == [];
  }

  /** Selecting the lines of one kind distributes over concatenation. */
  lemma {:induction false} KindLinesAppend(a: seq<string>, b: seq<string>, k: LineKind)
    ensures KindLines(a + b, k) == KindLines(a, k) + KindLines(b, k)
    decreases |b|
  {
    if b == [] {
      assert a + b == a;
    } else {
      var b', x := b[..|b| - 1], b[|b| - 1];
      assert b == b' + [x];
      assert a + b == (a + b') + [x];
      KindLinesAppend(a, b', k);
      KindLinesSnoc(a + b', x, k);
      KindLinesSnoc(b', x, k);
    }
  }

  lemma CountsOfAppend(a: seq<string>, b: seq<string>)
    ensures CountsOf(a + b) == CountsOf(a).Plus(CountsOf(b))
  {
    assert Count(a + b, Vertex) == Count(a, Vertex) + Count(b, Vertex) by {
      KindLinesAppend(a, b, Vertex);
    }
    assert Count(a + b, Normal) == Count(a, Normal) + Count(b, Normal) by {
      KindLinesAppend(a, b, Normal);
    }
    assert Count(a + b, TexCoord) == Count(a, TexCoord) + Count(b, TexCoord) by {
      KindLinesAppend(a, b, TexCoord);
    }
  }
}
