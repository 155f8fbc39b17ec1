/** Rewriting one face line from the document-wide index space to the index
    space of one object, given the element counts of the objects before it. */
module FaceRemap {
  import opened Wrappers
  import opened JsString
  import opened ObjLines

  /** One index of a reference, against the running count of its element
      kind: a number n with n - count > 0 becomes n - count, anything else
      (NaN, an empty slot, a result that is not positive) is kept as written. */
  function RemapComponent(part: string, count: nat): string {
    match ParseInt(part)
    case None => part
    case Some(n) => if n - count > 0 then NatToString(n - count) else part
  }

  /** The element kind that slot `p` of `v/vt/vn` refers to. */
  function SlotKind(p: nat): LineKind {
    if p == 0 then Vertex else if p == 1 then TexCoord else Normal
  }

  /** The running count that applies to slot `p` of `v/vt/vn`. */
  function SlotCount(p: nat, c: Counts): nat {
    c.Of(SlotKind(p))
  }

  /** The callback given to `vertexRefs.map`: a reference `v`, `v/vt` or
      `v/vt/vn` (a slot may be empty) has each slot remapped; a reference
      with more than three slots is returned as it is. */
  function RemapRef(ref: string, c: Counts): string {
    var parts := SplitChar(ref, '/');
    if |parts| == 1 then
      match ParseInt(parts[0])
      case None => ref
      case Some(n) => if n - c.v > 0 then NatToString(n - c.v) else ref
    else if |parts| == 2 then
      RemapComponent(parts[0], c.v) + "/" + RemapComponent(parts[1], c.vt)
    else if |parts| == 3 then
      RemapComponent(parts[0], c.v) + "/" + RemapComponent(parts[1], c.vt)
        + "/" + RemapComponent(parts[2], c.vn)
    else ref
  }

  function RemapRefs(refs: seq<string>, c: Counts): (r: seq<string>)
    ensures |r| == |refs|
  {
    seq(|refs|, k requires 0 <= k < |refs| => RemapRef(refs[k], c))
  }

  predicate NoLineTerminator(s: string) {
    forall i :: 0 <= i < |s| ==> !IsLineTerminator(s[i])
  }

  /** The backtracking of `\s+` in `/^f\s+(.+)$/`: the group starts at `p`
      and, when `(.+)$` cannot match from there, at `p - 1`, down to 2. */
  function TryCapture(t: string, p: nat): Option<string>
    requires 2 <= p <= |t|
    decreases p
  {
    if p < |t| && NoLineTerminator(t[p..]) then Some(t[p..])
    else if p > 2 then TryCapture(t, p - 1)
    else None
  }

  /** `t.match(/^f\s+(.+)$/)`, giving the captured group. */
  function FaceMatch(t: string): Option<string> {
    if |t| < 2 || t[0] != 'f' || !IsWhiteSpace(t[1]) then None
    else TryCapture(t, 1 + WhiteSpaceRun(t[1..]))
  }

  /** A face line as the second pass emits it: `"f "` followed by the
      remapped references joined by single spaces, or the line untouched
      when its trimmed text does not match `^f\s+(.+)$`. */
  function RemapFaceLine(line: string, c: Counts): string {
    match FaceMatch(Trim(line))
    case None => line
    case Some(indices) => "f " + Join(RemapRefs(SplitWhiteSpace(indices), c), " ")
  }

  // ---------------------------------------------------------------------
  // Properties of the remapping

  /** A remapped slot reads back, through `parseInt`, as the subtraction; a
      slot that is not remapped is kept verbatim; an empty slot stays empty. */
  lemma RemapComponentSpec(part: string, count: nat)
    ensures var n := ParseInt(part);
      if n.Some? && n.value > count then
        var r := RemapComponent(part, count);
        r != [] && AllDigits(r) && ParseInt(r) == Some(n.value - count)
      else RemapComponent(part, count) == part
    ensures part == [] ==> RemapComponent(part, count) == []
  {
    var n := ParseInt(part);
    if n.Some? && n.value > count {
      ParseIntNatToString(n.value - count);
    }
  }

  /** The slot arithmetic inverts: adding the count back to a remapped
      slot gives the document-wide index it was computed from. */
  lemma RemapComponentInverse(g: nat, count: nat)
    requires g > count
    ensures RemapComponent(NatToString(g), count) == NatToString(g - count)
    ensures ParseInt(RemapComponent(NatToString(g), count)) == Some(g - count)
  {
    ParseIntNatToString(g);
    ParseIntNatToString(g - count);
  }

  /** A positive index shifted up by a count comes back down to itself. */
  lemma RemapShift(n: nat, count: nat)
    requires n > 0
    ensures RemapComponent(NatToString(count + n), count) == NatToString(n)
  {
    RemapComponentInverse(count + n, count);
    assert count + n - count == n;
  }

  lemma NoSlashInDigits(s: string)
    requires AllDigits(s)
    ensures '/' !in s
  {
  }

  lemma NoSlashInComponent(part: string, count: nat)
    requires '/' !in part
    ensures '/' !in RemapComponent(part, count)
  {
    match ParseInt(part)
    case None =>
    case Some(n) =>
      if n - count > 0 {
        NoSlashInDigits(NatToString(n - count));
      }
  }

  /** Slot `p` of the parts of a reference, remapped against its own count. */
  function Slots(parts: seq<string>, c: Counts): (r: seq<string>)
    ensures |r| == |parts|
  {
    seq(|parts|, p requires 0 <= p < |parts| => RemapComponent(parts[p], SlotCount(p, c)))
  }

  lemma NoSlashInSlots(parts: seq<string>, c: Counts)
    requires forall k :: 0 <= k < |parts| ==> '/' !in parts[k]
    ensures forall k :: 0 <= k < |parts| ==> '/' !in Slots(parts, c)[k]
  {
    forall p | 0 <= p < |parts|
      ensures '/' !in Slots(parts, c)[p]
    {
      NoSlashInComponent(parts[p], SlotCount(p, c));
    }
  }

  lemma RemapRefJoin(ref: string, c: Counts)
    requires |SplitChar(ref, '/')| <= 3
    ensures RemapRef(ref, c) == Join(Slots(SplitChar(ref, '/'), c), "/")
  {
    var parts := SplitChar(ref, '/');
    if |parts| == 1 {
      RemapRefOne(ref, c);
    } else if |parts| == 2 {
      RemapRefTwo(ref, c);
    } else {
      RemapRefThree(ref, c);
    }
  }

  lemma RemapRefOne(ref: string, c: Counts)
    requires |SplitChar(ref, '/')| == 1
    ensures RemapRef(ref, c) == Join(Slots(SplitChar(ref, '/'), c), "/")
  {
    RemapRefOneBare(ref, c);
    SlotsOne(ref, c);
  }

  lemma SplitCharSingle(ref: string)
    requires |SplitChar(ref, '/')| == 1
    ensures SplitChar(ref, '/') == [ref]
  {
    JoinSplitChar(ref, '/');
  }

  lemma RemapRefOneBare(ref: string, c: Counts)
    requires |SplitChar(ref, '/')| == 1
    ensures RemapRef(ref, c) == RemapComponent(ref, c.v)
  {
    SplitCharSingle(ref);
  }

  lemma SlotsOne(ref: string, c: Counts)
    requires |SplitChar(ref, '/')| == 1
    ensures Join(Slots(SplitChar(ref, '/'), c), "/") == RemapComponent(ref, c.v)
  {
    SplitCharSingle(ref);
  }

  lemma RemapRefTwo(ref: string, c: Counts)
    requires |SplitChar(ref, '/')| == 2
    ensures RemapRef(ref, c) == Join(Slots(SplitChar(ref, '/'), c), "/")
  {
    var slots := Slots(SplitChar(ref, '/'), c);
    assert Join(slots, "/") == slots[0] + "/" + slots[1];
  }

  lemma RemapRefThree(ref: string, c: Counts)
    requires |SplitChar(ref, '/')| == 3
    ensures RemapRef(ref, c) == Join(Slots(SplitChar(ref, '/'), c), "/")
  {
    var slots := Slots(SplitChar(ref, '/'), c);
    assert Join(slots[1..], "/") == slots[1] + "/" + slots[2];
    assert Join(slots, "/") == slots[0] + "/" + slots[1] + "/" + slots[2];
  }

  /** A reference keeps its shape: the same number of `/`-separated slots,
      slot `p` remapped against the count of its own element kind (so an
      empty slot stays empty); more than three slots leave it untouched. */
  lemma RemapRefShape(ref: string, c: Counts)
    ensures |SplitChar(ref, '/')| <= 3 ==>
      SplitChar(RemapRef(ref, c), '/') == Slots(SplitChar(ref, '/'), c)
    ensures |SplitChar(ref, '/')| > 3 ==> RemapRef(ref, c) == ref
  {
    var parts := SplitChar(ref, '/');
    if |parts| <= 3 {
      RemapRefJoin(ref, c);
      NoSlashInSlots(parts, c);
      SplitCharJoin(Slots(parts, c), '/');
    }
  }

  lemma JoinFirst(refs: seq<string>, sep: string)
    requires |refs| >= 1 && refs[0] != []
    ensures Join(refs, sep) != [] && Join(refs, sep)[0] == refs[0][0]
  {
    if |refs| > 1 {
      assert Join(refs, sep) == refs[0] + (sep + Join(refs[1..], sep));
    }
  }

  lemma {:induction false} JoinNoLineTerminator(refs: seq<string>)
    requires forall k :: 0 <= k < |refs| ==> NoWhiteSpace(refs[k])
    ensures NoLineTerminator(Join(refs, " "))
  {
    if |refs| == 1 {
      NoWhiteSpaceNoLineTerminator(refs[0]);
    } else if |refs| > 1 {
      JoinNoLineTerminator(refs[1..]);
      NoWhiteSpaceNoLineTerminator(refs[0]);
      var rest := Join(refs[1..], " ");
      assert Join(refs, " ") == refs[0] + " " + rest;
      NoLineTerminatorAppend(refs[0], " ");
      NoLineTerminatorAppend(refs[0] + " ", rest);
    }
  }

  lemma NoWhiteSpaceNoLineTerminator(s: string)
    requires NoWhiteSpace(s)
    ensures NoLineTerminator(s)
  {
    forall i | 0 <= i < |s|
      ensures !IsLineTerminator(s[i])
    {
      assert !IsWhiteSpace(s[i]);
    }
  }

  lemma NoLineTerminatorAppend(a: string, b: string)
    requires NoLineTerminator(a) && NoLineTerminator(b)
    ensures NoLineTerminator(a + b)
  {
    forall i | 0 <= i < |a + b|
      ensures !IsLineTerminator((a + b)[i])
    {
      if i >= |a| {
        assert (a + b)[i] == b[i - |a|];
      }
    }
  }

  /** `/^f\s+(.+)$/` on `f`, a run of blanks and a text that starts with no
      blank: the capture is that whole text when it holds no line
      terminator, and there is no match when it does (`.` cannot cross a
      line terminator, and `\s+` cannot give up the blanks' first one). */
  lemma FaceMatchOfBody(w: string, body: string)
    requires w != [] && AllWhiteSpace(w)
    requires body != [] && !IsWhiteSpace(body[0])
    ensures FaceMatch("f" + w + body) == if NoLineTerminator(body) then Some(body) else None
  {
    var line := "f" + w + body;
    assert line[1..] == w + body;
    WhiteSpaceRunOf(w, body);
    var p := 1 + |w|;
    assert line[p..] == body;
    if !NoLineTerminator(body) {
      var k :| 0 <= k < |body| && IsLineTerminator(body[k]);
      assert line[p + k] == body[k];
      TryCaptureFails(line, p, p + k);
    }
  }

  /** No capture starting at or before a line terminator can reach `$`. */
  lemma {:induction false} TryCaptureFails(t: string, p: nat, k: nat)
    requires 2 <= p <= k < |t| && IsLineTerminator(t[k])
    ensures TryCapture(t, p) == None
    decreases p
  {
    assert t[p..][k - p] == t[k];
    if p > 2 {
      TryCaptureFails(t, p - 1, k);
    }
  }

  predicate WellFormedRefs(refs: seq<string>) {
    |refs| >= 1 && forall k :: 0 <= k < |refs| ==> refs[k] != [] && NoWhiteSpace(refs[k])
  }

  lemma FaceLineMatches(refs: seq<string>)
    requires WellFormedRefs(refs)
    ensures FaceMatch("f " + Join(refs, " ")) == Some(Join(refs, " "))
  {
    JoinFirst(refs, " ");
    JoinNoLineTerminator(refs);
    FaceMatchOfBody(" ", Join(refs, " "));
  }

  /** A face line whose trimmed text is `f` and its references separated by
      single spaces is rewritten reference by reference, keeping that layout. */
  lemma RemapFaceLineOfRefs(line: string, refs: seq<string>, c: Counts)
    requires WellFormedRefs(refs)
    requires Trim(line) == "f " + Join(refs, " ")
    ensures RemapFaceLine(line, c) == "f " + Join(RemapRefs(refs, c), " ")
  {
    FaceLineMatches(refs);
    SplitWhiteSpaceJoin(refs);
  }

  /** Any face line: once trimmed, `f`, a run of blanks, then the text of the
      references. With no line terminator in that text, its words are the
      references (the text with each run of blanks made one space) and the
      line is rewritten reference by reference; with one, the line is kept. */
  lemma RemapFaceLineOfText(line: string, w: string, body: string, c: Counts)
    requires Trim(line) == "f" + w + body
    requires w != [] && AllWhiteSpace(w)
    requires body != [] && !IsWhiteSpace(body[0])
    ensures NoLineTerminator(body) ==>
      var refs := SplitWhiteSpace(body);
      WellFormedRefs(refs) && Join(refs, " ") == CollapseBlanks(body)
      && RemapFaceLine(line, c) == "f " + Join(RemapRefs(refs, c), " ")
    ensures !NoLineTerminator(body) ==> RemapFaceLine(line, c) == line
  {
    FaceMatchOfBody(w, body);
    var t := Trim(line);
    assert body[|body| - 1] == t[|t| - 1];
    SplitWhiteSpaceWords(body);
  }
}
