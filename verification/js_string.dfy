/** The ECMAScript string primitives the splitter relies on: `trim`,
    `startsWith`, `parseInt(s, 10)`, `Number.prototype.toString` on
    non-negative integers, `split` on one character, `split(/\s+/)` and
    `join`. Strings are sequences of characters. */
module JsString {
  import opened Wrappers

  /** ECMAScript LineTerminator: LF, CR, LINE SEPARATOR, PARAGRAPH SEPARATOR. */
  const LineTerminators: set<char> := {'\n', '\r', '\U{2028}', '\U{2029}'}

  /** ECMAScript WhiteSpace (tab, vertical tab, form feed, space, no-break
      space, byte order mark, the Unicode space separators) together with
      the line terminators: the characters `trim` removes, the class `\s`
      matches and `parseInt` skips. */
  const WhiteSpaceChars: set<char> := {
    '\t', '\U{000B}', '\U{000C}', ' ', '\U{00A0}', '\U{FEFF}', '\U{1680}',
    '\U{2000}', '\U{2001}', '\U{2002}', '\U{2003}', '\U{2004}', '\U{2005}',
    '\U{2006}', '\U{2007}', '\U{2008}', '\U{2009}', '\U{200A}',
    '\U{202F}', '\U{205F}', '\U{3000}',
    '\n', '\r', '\U{2028}', '\U{2029}'}

  predicate IsLineTerminator(c: char) {
    c in LineTerminators
  }

  predicate IsWhiteSpace(c: char) {
    c in WhiteSpaceChars
  }

  predicate IsDigit(c: char) {
    '0' <= c <= '9'
  }

  predicate AllDigits(s: string) {
    forall i :: 0 <= i < |s| ==> IsDigit(s[i])
  }

  predicate NoWhiteSpace(s: string) {
    forall i :: 0 <= i < |s| ==> !IsWhiteSpace(s[i])
  }

  predicate StartsWith(s: string, prefix: string) {
    |prefix| <= |s| && s[..|prefix|] == prefix
  }

  /** `s.trimStart()`: drops the leading white space and nothing else. */
  function TrimStart(s: string): (r: string)
    ensures |r| <= |s|
    ensures r == [] || !IsWhiteSpace(r[0])
  {
    if s != [] && IsWhiteSpace(s[0]) then TrimStart(s[1..]) else s
  }

  /** `s.trimEnd()`: drops the trailing white space and nothing else. */
  function TrimEnd(s: string): (r: string)
    ensures |r| <= |s|
    ensures r == [] || !IsWhiteSpace(r[|r| - 1])
  {
    if s != [] && IsWhiteSpace(s[|s| - 1]) then TrimEnd(s[..|s| - 1]) else s
  }

  /** `s.trim()`: no white space is left at either end. */
  function Trim(s: string): (r: string)
    ensures r == [] || (!IsWhiteSpace(r[0]) && !IsWhiteSpace(r[|r| - 1]))
  {
    TrimEndPrefix(TrimStart(s));
    TrimEnd(TrimStart(s))
  }

  /** A string that starts with a non-blank character keeps it in front. */
  lemma TrimKeepsFirst(s: string)
    requires s != [] && !IsWhiteSpace(s[0])
    ensures Trim(s) != [] && Trim(s)[0] == s[0]
  {
    TrimEndPrefix(s);
    assert TrimStart(s) == s;
  }

  /** A string with non-blank ends is its own trim. */
  lemma TrimOfTrimmed(s: string)
    requires s == [] || (!IsWhiteSpace(s[0]) && !IsWhiteSpace(s[|s| - 1]))
    ensures Trim(s) == s
  {
  }

  /** `trimStart` removes a prefix made of white space only. */
  lemma {:induction false} TrimStartSuffix(s: string)
    ensures TrimStart(s) == s[|s| - |TrimStart(s)|..]
    ensures forall i :: 0 <= i < |s| - |TrimStart(s)| ==> IsWhiteSpace(s[i])
  {
    if s != [] && IsWhiteSpace(s[0]) {
      TrimStartSuffix(s[1..]);
    }
  }

  /** `trimEnd` removes a suffix made of white space only. */
  lemma {:induction false} TrimEndPrefix(s: string)
    ensures TrimEnd(s) == s[..|TrimEnd(s)|]
    ensures forall i :: |TrimEnd(s)| <= i < |s| ==> IsWhiteSpace(s[i])
  {
    if s != [] && IsWhiteSpace(s[|s| - 1]) {
      TrimEndPrefix(s[..|s| - 1]);
    }
  }

  /** Length of the longest prefix of decimal digits. */
  function DigitRun(s: string): (n: nat)
    ensures n <= |s| && AllDigits(s[..n])
    ensures n == |s| || !IsDigit(s[n])
  {
    if s != [] && IsDigit(s[0]) then 1 + DigitRun(s[1..]) else 0
  }

  /** Length of the longest prefix of white space. */
  function WhiteSpaceRun(s: string): (n: nat)
    ensures n <= |s|
    ensures forall i :: 0 <= i < n ==> IsWhiteSpace(s[i])
    ensures n == |s| || !IsWhiteSpace(s[n])
  {
    if s != [] && IsWhiteSpace(s[0]) then 1 + WhiteSpaceRun(s[1..]) else 0
  }

  /** Length of the longest prefix without white space. */
  function WordRun(s: string): (n: nat)
    ensures n <= |s| && NoWhiteSpace(s[..n])
    ensures n == |s| || IsWhiteSpace(s[n])
  {
    if s != [] && !IsWhiteSpace(s[0]) then 1 + WordRun(s[1..]) else 0
  }

  function DigitValue(c: char): nat
    requires IsDigit(c)
  {
    c as int - '0' as int
  }

  function DigitChar(d: nat): (c: char)
    requires d < 10
    ensures IsDigit(c) && DigitValue(c) == d
  {
    ('0' as int + d) as char
  }

  /** The decimal value of a digit string, most significant digit first. */
  function DigitsValue(ds: string): nat
    requires AllDigits(ds)
  {
    if ds == [] then 0
    else DigitsValue(ds[..|ds| - 1]) * 10 + DigitValue(ds[|ds| - 1])
  }

  /** `parseInt(s, 10)`: skip leading white space, take an optional sign,
      then the longest run of decimal digits; no digits gives NaN (None).
      The value -0 that JavaScript gives for "-0" is 0 here. */
  function ParseInt(s: string): Option<int> {
    var t := TrimStart(s);
    var negative := t != [] && t[0] == '-';
    var u := if t != [] && (t[0] == '-' || t[0] == '+') then t[1..] else t;
    var n := DigitRun(u);
    if n == 0 then None
    else Some(if negative then 0 - DigitsValue(u[..n]) else DigitsValue(u[..n]))
  }

  /** `n.toString()` for a non-negative integer: its decimal digits, with no
      leading zero except for 0 itself. */
  function NatToString(n: nat): (r: string)
    ensures r != [] && AllDigits(r) && DigitsValue(r) == n
    ensures r[0] == '0' ==> n == 0
  {
    if n < 10 then [DigitChar(n)]
    else
      var prefix := NatToString(n / 10);
      var r := prefix + [DigitChar(n % 10)];
      assert r[..|r| - 1] == prefix;
      r
  }

  /** `s.split(sep)` for a one-character separator: the pieces between
      separators, empty pieces included. */
  function SplitChar(s: string, sep: char): (r: seq<string>)
    ensures |r| >= 1
    ensures forall k :: 0 <= k < |r| ==> sep !in r[k]
  {
    if s == [] then [[]]
    else
      var rest := SplitChar(s[1..], sep);
      if s[0] == sep then [[]] + rest
      else [[s[0]] + rest[0]] + rest[1..]
  }

  /** `parts.join(sep)`. */
  function Join(parts: seq<string>, sep: string): string {
    if parts == [] then []
    else if |parts| == 1 then parts[0]
    else parts[0] + sep + Join(parts[1..], sep)
  }

  /** `s.split(/\s+/)`: the pieces between maximal runs of white space; a
      leading or trailing run yields an empty first or last piece. */
  function SplitWhiteSpace(s: string): (r: seq<string>)
    ensures |r| >= 1
    ensures forall k :: 0 <= k < |r| ==> NoWhiteSpace(r[k])
    decreases |s|
  {
    var t := WordRun(s);
    if t == |s| then [s]
    else
      var w := WhiteSpaceRun(s[t..]);
      [s[..t]] + SplitWhiteSpace(s[t + w..])
  }

  predicate AllWhiteSpace(s: string) {
    forall i :: 0 <= i < |s| ==> IsWhiteSpace(s[i])
  }

  /** `s` with every maximal run of white space written as one space: the
      words of `s`, in order, separated by single spaces. */
  function CollapseBlanks(s: string): string {
    if s == [] then []
    else if !IsWhiteSpace(s[0]) then [s[0]] + CollapseBlanks(s[1..])
    else if |s| > 1 && IsWhiteSpace(s[1]) then CollapseBlanks(s[1..])
    else " " + CollapseBlanks(s[1..])
  }

  // ---------------------------------------------------------------------
  // Round trips between the primitives

  lemma {:induction false} DigitsValuePrefix(ds: string, d: char)
    requires AllDigits(ds) && IsDigit(d)
    ensures AllDigits(ds + [d])
    ensures DigitsValue(ds + [d]) == DigitsValue(ds) * 10 + DigitValue(d)
  {
    assert (ds + [d])[..|ds|] == ds;
  }

  /** `parseInt` reads a digit string back as its decimal value. */
  lemma ParseIntOfDigits(ds: string)
    requires ds != [] && AllDigits(ds)
    ensures ParseInt(ds) == Some(DigitsValue(ds))
  {
    assert !IsWhiteSpace(ds[0]) && TrimStart(ds) == ds;
    assert DigitRun(ds) == |ds| by { DigitRunAll(ds); }
    assert ds[..|ds|] == ds;
  }

  lemma {:induction false} DigitRunAll(ds: string)
    requires AllDigits(ds)
    ensures DigitRun(ds) == |ds|
  {
    if ds != [] {
      DigitRunAll(ds[1..]);
    }
  }

  /** `parseInt(n.toString(), 10) == n` for every non-negative integer. */
  lemma ParseIntNatToString(n: nat)
    ensures ParseInt(NatToString(n)) == Some(n)
  {
    ParseIntOfDigits(NatToString(n));
  }

  /** Distinct numbers print differently. */
  lemma NatToStringInjective(m: nat, n: nat)
    ensures NatToString(m) == NatToString(n) <==> m == n
  {
    if NatToString(m) == NatToString(n) {
      ParseIntNatToString(m);
      ParseIntNatToString(n);
    }
  }

  /** Joining the pieces of a split with the separator gives the string back. */
  lemma {:induction false} JoinSplitChar(s: string, sep: char)
    ensures Join(SplitChar(s, sep), [sep]) == s
  {
    if s != [] {
      var rest := SplitChar(s[1..], sep);
      JoinSplitChar(s[1..], sep);
      if s[0] == sep {
        assert SplitChar(s, sep) == [[]] + rest;
      } else {
        var r := [[s[0]] + rest[0]] + rest[1..];
        assert SplitChar(s, sep) == r;
        if |rest| == 1 {
          assert Join(r, [sep]) == [s[0]] + rest[0];
        } else {
          assert r[1..] == rest[1..];
          assert Join(rest, [sep]) == rest[0] + [sep] + Join(rest[1..], [sep]);
        }
      }
    }
  }

  /** Splitting a join of separator-free pieces gives the pieces back. */
  lemma {:induction false} SplitCharJoin(parts: seq<string>, sep: char)
    requires |parts| >= 1
    requires forall k :: 0 <= k < |parts| ==> sep !in parts[k]
    ensures SplitChar(Join(parts, [sep]), sep) == parts
  {
    if |parts| == 1 {
      SplitCharNoSep(parts[0], sep);
    } else {
      SplitCharJoin(parts[1..], sep);
      SplitCharPiece(parts[0], Join(parts[1..], [sep]), sep);
      assert Join(parts, [sep]) == parts[0] + ([sep] + Join(parts[1..], [sep]));
    }
  }

  lemma {:induction false} SplitCharNoSep(s: string, sep: char)
    requires sep !in s
    ensures SplitChar(s, sep) == [s]
  {
    if s != [] {
      SplitCharNoSep(s[1..], sep);
      assert s[0] in s;
      assert [s[0]] + s[1..] == s;
    }
  }

  /** A separator-free piece in front of `sep + t` becomes the first piece. */
  lemma {:induction false} SplitCharPiece(p: string, t: string, sep: char)
    requires sep !in p
    ensures SplitChar(p + ([sep] + t), sep) == [p] + SplitChar(t, sep)
  {
    if p == [] {
      assert p + ([sep] + t) == [sep] + t;
      assert ([sep] + t)[1..] == t;
    } else {
      SplitCharPiece(p[1..], t, sep);
      assert (p + ([sep] + t))[1..] == p[1..] + ([sep] + t);
      assert [p[0]] + p[1..] == p;
    }
  }

  /** A join of non-empty pieces ends with the last piece's last character. */
  lemma {:induction false} JoinLast(parts: seq<string>, sep: string)
    requires |parts| >= 1 && parts[|parts| - 1] != []
    ensures Join(parts, sep) != []
    ensures Join(parts, sep)[|Join(parts, sep)| - 1] == parts[|parts| - 1][|parts[|parts| - 1]| - 1]
  {
    if |parts| > 1 {
      JoinLast(parts[1..], sep);
    }
  }

  /** Splitting a single-space join of non-empty, blank-free words on
      white space gives the words back. */
  lemma {:induction false} SplitWhiteSpaceJoin(words: seq<string>)
    requires |words| >= 1
    requires forall k :: 0 <= k < |words| ==> words[k] != [] && NoWhiteSpace(words[k])
    ensures SplitWhiteSpace(Join(words, " ")) == words
  {
    var s := Join(words, " ");
    WordRunOf(words[0], if |words| == 1 then [] else " " + Join(words[1..], " "));
    if |words| > 1 {
      var rest := Join(words[1..], " ");
      assert s == words[0] + (" " + rest);
      SplitWhiteSpaceJoin(words[1..]);
      assert rest != [] && rest[0] == words[1][0] by {
        if |words| == 2 {
          assert rest == words[1];
        } else {
          assert rest == words[1] + " " + Join(words[2..], " ");
        }
      }
      assert s[|words[0]|..] == " " + rest;
      assert WhiteSpaceRun(" " + rest) == 1 by {
        assert (" " + rest)[1..] == rest;
      }
      assert s[|words[0]| + 1..] == rest;
      assert s[..|words[0]|] == words[0];
    } else {
      assert s == words[0];
    }
  }

  lemma {:induction false} WordRunOf(w: string, t: string)
    requires NoWhiteSpace(w)
    requires t == [] || IsWhiteSpace(t[0])
    ensures WordRun(w + t) == |w|
  {
    if w != [] {
      WordRunOf(w[1..], t);
      assert (w + t)[1..] == w[1..] + t;
    } else {
      assert w + t == t;
    }
  }

  /** A text with non-blank ends splits on `/\s+/` into non-empty words,
      and those words, joined by single spaces, are the text with each run
      of blanks collapsed to one space. */
  lemma {:induction false} SplitWhiteSpaceWords(s: string)
    requires s != [] && !IsWhiteSpace(s[0]) && !IsWhiteSpace(s[|s| - 1])
    ensures forall k :: 0 <= k < |SplitWhiteSpace(s)| ==> SplitWhiteSpace(s)[k] != []
    ensures Join(SplitWhiteSpace(s), " ") == CollapseBlanks(s)
    decreases |s|
  {
    var t := WordRun(s);
    if t == |s| {
      assert SplitWhiteSpace(s) == [s];
      assert CollapseBlanks(s) == s by {
        CollapseWord(s, []);
        assert s + [] == s;
      }
    } else {
      var w := WhiteSpaceRun(s[t..]);
      var rest := s[t + w..];
      WordThenBlanks(s, t, w);
      SplitWhiteSpaceWords(rest);
      SplitWhiteSpaceCons(s, t, w);
      JoinCons(s[..t], SplitWhiteSpace(rest), " ");
      CollapseAt(s, t, w);
    }
  }

  /** In a text with non-blank ends that is more than one word, the first
      word is followed by a non-empty run of blanks and then by a text with
      non-blank ends. */
  lemma WordThenBlanks(s: string, t: nat, w: nat)
    requires s != [] && !IsWhiteSpace(s[0]) && !IsWhiteSpace(s[|s| - 1])
    requires t == WordRun(s) && t < |s| && w == WhiteSpaceRun(s[t..])
    ensures 1 <= t && 1 <= w && t + w < |s|
    ensures NoWhiteSpace(s[..t]) && AllWhiteSpace(s[t..t + w]) && !IsWhiteSpace(s[t + w])
    ensures var rest := s[t + w..];
      rest != [] && !IsWhiteSpace(rest[0]) && !IsWhiteSpace(rest[|rest| - 1])
  {
    var blanks := s[t..t + w];
    forall i | 0 <= i < |blanks|
      ensures IsWhiteSpace(blanks[i])
    {
      assert blanks[i] == s[t..][i];
    }
    assert s[t + w] == s[t..][w];
    var rest := s[t + w..];
    assert rest[0] == s[t + w] && rest[|rest| - 1] == s[|s| - 1];
  }

  /** Where the text does not end with its first word, that word is the
      first piece and the pieces of what follows the blanks come after it. */
  lemma SplitWhiteSpaceCons(s: string, t: nat, w: nat)
    requires t == WordRun(s) && t < |s| && w == WhiteSpaceRun(s[t..])
    ensures SplitWhiteSpace(s) == [s[..t]] + SplitWhiteSpace(s[t + w..])
  {
  }

  /** Joining a piece in front of at least one more piece puts the
      separator between them. */
  lemma JoinCons(a: string, parts: seq<string>, sep: string)
    requires |parts| >= 1
    ensures Join([a] + parts, sep) == a + sep + Join(parts, sep)
  {
    assert ([a] + parts)[1..] == parts;
  }

  /** Collapsing a word, then a run of blanks, then a non-blank character. */
  lemma CollapseAt(s: string, t: nat, w: nat)
    requires 1 <= w && t + w < |s|
    requires NoWhiteSpace(s[..t])
    requires AllWhiteSpace(s[t..t + w]) && !IsWhiteSpace(s[t + w])
    ensures CollapseBlanks(s) == s[..t] + " " + CollapseBlanks(s[t + w..])
  {
    var word, blanks, rest := s[..t], s[t..t + w], s[t + w..];
    assert CollapseBlanks(word + (blanks + rest)) == word + (" " + CollapseBlanks(rest)) by {
      CollapseWord(word, blanks + rest);
      assert blanks != [] && rest != [] && !IsWhiteSpace(rest[0]);
      CollapseRun(blanks, rest);
    }
    var x := CollapseBlanks(rest);
    assert word + (" " + x) == word + " " + x;
    assert s == word + (blanks + rest);
  }

  /** A blank-free word passes through `CollapseBlanks` unchanged. */
  lemma {:induction false} CollapseWord(a: string, b: string)
    requires NoWhiteSpace(a)
    ensures CollapseBlanks(a + b) == a + CollapseBlanks(b)
  {
    if a == [] {
      assert a + b == b;
    } else {
      CollapseWord(a[1..], b);
      assert (a + b)[1..] == a[1..] + b;
    }
  }

  /** A non-empty run of blanks before a word becomes one space. */
  lemma {:induction false} CollapseRun(w: string, b: string)
    requires w != [] && AllWhiteSpace(w)
    requires b != [] && !IsWhiteSpace(b[0])
    ensures CollapseBlanks(w + b) == " " + CollapseBlanks(b)
  {
    assert (w + b)[1..] == w[1..] + b;
    if |w| > 1 {
      CollapseRun(w[1..], b);
    } else {
      assert w[1..] + b == b;
    }
  }

  /** A run of blanks in front of a word is measured exactly. */
  lemma {:induction false} WhiteSpaceRunOf(w: string, b: string)
    requires AllWhiteSpace(w)
    requires b == [] || !IsWhiteSpace(b[0])
    ensures WhiteSpaceRun(w + b) == |w|
  {
    if w == [] {
      assert w + b == b;
    } else {
      WhiteSpaceRunOf(w[1..], b);
      assert (w + b)[1..] == w[1..] + b;
    }
  }
}
