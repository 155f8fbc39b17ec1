/** How an object marker's name becomes the number of its output file:
    the digits of the first `obj<digits>`, else one more than the digits of
    the first `Cube` / `Cube.<digits>` (bare `Cube` counting as 0), else the
    marker's ordinal among the markers found so far. */
module ObjNames {
  import opened Wrappers
  import opened JsString

  /** `/obj(\d+)/` can match starting at index `i`. */
  predicate ObjTagAt(name: string, i: nat) {
    i + 4 <= |name| && name[i..i + 3] == "obj" && IsDigit(name[i + 3])
  }

  /** `/Cube(?:\.(\d+))?/` can match starting at index `i`; the optional
      group never prevents a match. */
  predicate CubeAt(name: string, i: nat) {
    i + 4 <= |name| && name[i..i + 4] == "Cube"
  }

  /** The leftmost index at or after `from` where `/obj(\d+)/` matches. */
  function FirstObjTag(name: string, from: nat): (r: Option<nat>)
    ensures r.Some? ==> from <= r.value && ObjTagAt(name, r.value)
    ensures r.Some? ==> forall i :: from <= i < r.value ==> !ObjTagAt(name, i)
    ensures r.None? ==> forall i :: from <= i ==> !ObjTagAt(name, i)
    decreases |name| - from
  {
    if from + 4 > |name| then None
    else if ObjTagAt(name, from) then Some(from)
    else FirstObjTag(name, from + 1)
  }

  /** The leftmost index at or after `from` where `/Cube(?:\.(\d+))?/` matches. */
  function FirstCube(name: string, from: nat): (r: Option<nat>)
    ensures r.Some? ==> from <= r.value && CubeAt(name, r.value)
    ensures r.Some? ==> forall i :: from <= i < r.value ==> !CubeAt(name, i)
    ensures r.None? ==> forall i :: from <= i ==> !CubeAt(name, i)
    decreases |name| - from
  {
    if from + 4 > |name| then None
    else if CubeAt(name, from) then Some(from)
    else FirstCube(name, from + 1)
  }

  /** The greedy `\d+` starting at index `p`. */
  function DigitsAt(name: string, p: nat): (ds: string)
    requires p <= |name|
    ensures AllDigits(ds)
  {
    var n := DigitRun(name[p..]);
    assert name[p..][..n] == name[p..p + n];
    name[p..p + n]
  }

  /** The value of the optional `\.(\d+)` group after a `Cube` at `j`, or 0
      when the group did not participate. */
  function CubeSuffixValue(name: string, j: nat): nat
    requires CubeAt(name, j)
  {
    if j + 5 < |name| && name[j + 4] == '.' && IsDigit(name[j + 5])
    then DigitsValue(DigitsAt(name, j + 5))
    else 0
  }

  /** The number of the output file for a marker named `name` that is
      discovered when `ordinal` markers have already been found. */
  function ObjectNumber(name: string, ordinal: nat): nat {
    match FirstObjTag(name, 0)
    case Some(i) => DigitsValue(DigitsAt(name, i + 3))
    case None =>
      match FirstCube(name, 0)
      case Some(j) => CubeSuffixValue(name, j) + 1
      case None => ordinal + 1
  }

  // ---------------------------------------------------------------------
  // What ObjectNumber gives for the names the splitter is meant for

  lemma {:induction false} DigitsAtOf(name: string, p: nat, ds: string, post: string)
    requires p + |ds| + |post| == |name| && name[p..] == ds + post
    requires AllDigits(ds)
    requires post == [] || !IsDigit(post[0])
    ensures DigitsAt(name, p) == ds
  {
    DigitRunPrefix(ds, post);
    assert name[p..p + |ds|] == (ds + post)[..|ds|];
  }

  lemma {:induction false} DigitRunPrefix(ds: string, post: string)
    requires AllDigits(ds)
    requires post == [] || !IsDigit(post[0])
    ensures DigitRun(ds + post) == |ds|
  {
    if ds == [] {
      assert ds + post == post;
    } else {
      DigitRunPrefix(ds[1..], post);
      assert (ds + post)[1..] == ds[1..] + post;
    }
  }

  /** The first `obj<digit>` decides the number. */
  lemma ObjTagRule(name: string, p: nat, ordinal: nat)
    requires FirstObjTag(name, 0) == Some(p)
    ensures ObjectNumber(name, ordinal) == DigitsValue(DigitsAt(name, p + 3))
  {
  }

  /** Without `obj<digit>`, the first `Cube` decides the number. */
  lemma CubeRule(name: string, j: nat, ordinal: nat)
    requires FirstObjTag(name, 0) == None && FirstCube(name, 0) == Some(j)
    ensures ObjectNumber(name, ordinal) == CubeSuffixValue(name, j) + 1
  {
  }

  lemma FirstObjTagIs(name: string, p: nat)
    requires ObjTagAt(name, p)
    requires forall i: nat :: i < p ==> !ObjTagAt(name, i)
    ensures FirstObjTag(name, 0) == Some(p)
  {
  }

  lemma FirstCubeIs(name: string, p: nat)
    requires CubeAt(name, p)
    requires forall i: nat :: i < p ==> !CubeAt(name, i)
    ensures FirstCube(name, 0) == Some(p)
  {
  }

  /** A name in which `obj<digits>` first occurs right after `pre`, its
      digit run being `ds`, is numbered by those digits, whatever the
      ordinal and whatever follows. */
  lemma ObjTagNumber(pre: string, ds: string, post: string, ordinal: nat)
    requires ds != [] && AllDigits(ds)
    requires post == [] || !IsDigit(post[0])
    requires forall i: nat :: i < |pre| ==> !ObjTagAt(pre + "obj" + ds + post, i)
    ensures ObjectNumber(pre + "obj" + ds + post, ordinal) == DigitsValue(ds)
  {
    var name, p := pre + "obj" + ds + post, |pre|;
    ObjTagLayout(pre, ds, post);
    FirstObjTagIs(name, p);
    DigitsAtOf(name, p + 3, ds, post);
    ObjTagRule(name, p, ordinal);
  }

  /** Where the parts of `pre + "obj" + ds + post` sit. */
  lemma ObjTagLayout(pre: string, ds: string, post: string)
    requires ds != [] && AllDigits(ds)
    ensures ObjTagAt(pre + "obj" + ds + post, |pre|)
    ensures (pre + "obj" + ds + post)[|pre| + 3..] == ds + post
  {
    var name, p := pre + "obj" + ds + post, |pre|;
    assert name[p..p + 3] == "obj";
    assert name[p + 3] == ds[0];
    assert name == (pre + "obj") + (ds + post);
  }

  /** A name in which `obj<digit>` never occurs and `Cube` first occurs
      right after `pre`, not followed by `.` and a digit, is number 1. */
  lemma BareCubeNumber(pre: string, post: string, ordinal: nat)
    requires forall i: nat :: !ObjTagAt(pre + "Cube" + post, i)
    requires forall i: nat :: i < |pre| ==> !CubeAt(pre + "Cube" + post, i)
    requires post == [] || post[0] != '.' || |post| == 1 || !IsDigit(post[1])
    ensures ObjectNumber(pre + "Cube" + post, ordinal) == 1
  {
    var name, j := pre + "Cube" + post, |pre|;
    assert CubeAt(name, j) by {
      assert name[j..j + 4] == "Cube";
    }
    FirstCubeIs(name, j);
    assert CubeSuffixValue(name, j) == 0 by {
      if j + 5 < |name| && name[j + 4] == '.' {
        assert name[j + 4] == post[0] && name[j + 5] == post[1];
      }
    }
    CubeRule(name, j, ordinal);
  }

  /** A name in which `obj<digit>` never occurs and `Cube` first occurs
      right after `pre` as `Cube.<digits>` is one more than its digits:
      `Cube.001` is number 2. */
  lemma DottedCubeNumber(pre: string, ds: string, post: string, ordinal: nat)
    requires forall i: nat :: !ObjTagAt(pre + "Cube." + ds + post, i)
    requires forall i: nat :: i < |pre| ==> !CubeAt(pre + "Cube." + ds + post, i)
    requires ds != [] && AllDigits(ds)
    requires post == [] || !IsDigit(post[0])
    ensures ObjectNumber(pre + "Cube." + ds + post, ordinal) == DigitsValue(ds) + 1
  {
    var name, j := pre + "Cube." + ds + post, |pre|;
    DottedCubeLayout(pre, ds, post);
    FirstCubeIs(name, j);
    DigitsAtOf(name, j + 5, ds, post);
    CubeRule(name, j, ordinal);
  }

  /** Where the parts of `pre + "Cube." + ds + post` sit. */
  lemma DottedCubeLayout(pre: string, ds: string, post: string)
    requires ds != [] && AllDigits(ds)
    ensures CubeAt(pre + "Cube." + ds + post, |pre|)
    ensures (pre + "Cube." + ds + post)[|pre| + 4] == '.'
    ensures IsDigit((pre + "Cube." + ds + post)[|pre| + 5])
    ensures (pre + "Cube." + ds + post)[|pre| + 5..] == ds + post
  {
    var name, j := pre + "Cube." + ds + post, |pre|;
    assert name[j..j + 4] == "Cube";
    assert name == (pre + "Cube.") + (ds + post);
    assert name[j + 5] == ds[0];
  }

  /** A name in which neither `obj<digit>` nor `Cube` occurs is numbered
      by its ordinal. */
  lemma PlainNameNumber(name: string, ordinal: nat)
    requires forall i: nat :: !ObjTagAt(name, i) && !CubeAt(name, i)
    ensures ObjectNumber(name, ordinal) == ordinal + 1
  {
  }

  /** `Body_obj2` is number 2: the `obj` tag may sit anywhere in the name. */
  lemma ObjTagExample(ordinal: nat)
    ensures ObjectNumber("Body_obj2", ordinal) == 2
  {
    assert "Body_obj2" == "Body_" + "obj" + "2" + [];
    ObjTagNumber("Body_", "2", [], ordinal);
    assert DigitsValue("2") == 2;
  }

  /** `Cube_top` is number 1: a bare `Cube` anywhere in the name. */
  lemma BareCubeExample(ordinal: nat)
    ensures ObjectNumber("Cube_top", ordinal) == 1
  {
    assert "Cube_top" == [] + "Cube" + "_top";
    BareCubeNumber([], "_top", ordinal);
  }

  /** `Col_Cube.003` is number 4: the digits after `Cube.`, plus one. */
  lemma DottedCubeExample(ordinal: nat)
    ensures ObjectNumber("Col_Cube.003", ordinal) == 4
  {
    assert "Col_Cube.003" == "Col_" + "Cube." + "003" + [];
    ColCubeTags();
    DottedCubeNumber("Col_", "003", [], ordinal);
    assert DigitsValue("003") == 3 by {
      assert "003"[..2] == "00" && "00"[..1] == "0";
    }
  }

  /** In `Col_Cube.003` no `obj<digit>` occurs, and `Cube` first occurs at 4. */
  lemma ColCubeTags()
    ensures forall i: nat :: !ObjTagAt("Col_Cube.003", i)
    ensures forall i: nat :: i < 4 ==> !CubeAt("Col_Cube.003", i)
  {
    var name := "Col_Cube.003";
    forall i: nat
      ensures !ObjTagAt(name, i) && (i < 4 ==> !CubeAt(name, i))
    {
      if i + 4 <= |name| {
        assert name[i..i + 3][0] == name[i] && name[i..i + 3][1] == name[i + 1];
        assert name[i..i + 4][0] == name[i] && name[i..i + 4][1] == name[i + 1];
      }
    }
  }

  /** `Cone` is numbered by its ordinal. */
  lemma PlainNameExample(ordinal: nat)
    ensures ObjectNumber("Cone", ordinal) == ordinal + 1
  {
    var name := "Cone";
    forall i: nat
      ensures !ObjTagAt(name, i) && !CubeAt(name, i)
    {
      if i + 4 <= |name| {
        assert name[i..i + 3][0] == name[i];
        assert name[i..i + 4][1] == name[i + 1];
      }
    }
    PlainNameNumber(name, ordinal);
  }
}
