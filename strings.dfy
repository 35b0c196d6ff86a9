/** The string primitives the document helpers rely on, with ECMAScript
    semantics: `String.prototype.startsWith`, `String.prototype.includes`,
    `String.prototype.trim`, and the text of line 0 of an editor document
    (`TextDocument.lineAt(0).text`). Strings are sequences of characters. */
module Strings {

  /** ECMAScript WhiteSpace and LineTerminator code points, the set that
      `trim` removes: TAB, VT, FF, SP, NBSP, ZWNBSP, the other Unicode
      space separators (Zs), LF, CR, LS and PS. */
  predicate IsWhitespace(c: char) {
    || c == '\t' || c == '\U{000B}' || c == '\U{000C}' || c == ' '
    || c == '\U{00A0}' || c == '\U{FEFF}' || c == '\U{1680}'
    || ('\U{2000}' <= c <= '\U{200A}')
    || c == '\U{202F}' || c == '\U{205F}' || c == '\U{3000}'
    || c == '\n' || c == '\r' || c == '\U{2028}' || c == '\U{2029}'
  }

  /** Each whitespace character is one UTF-16 code unit of the Basic
      Multilingual Plane outside the surrogate range, so `trim` treats it
      the same whether strings are read as code points or as code units. */
  lemma WhitespaceIsBmp(c: char)
    requires IsWhitespace(c)
    ensures c as int < 0xD800 || 0xE000 <= c as int < 0x1_0000
  {
  }

  /** Every character of `s` is whitespace. */
  predicate AllWhitespace(s: string) {
    forall k :: 0 <= k < |s| ==> IsWhitespace(s[k])
  }

  /** `sub` occurs in `s` starting at index `i`. */
  predicate OccursAt(s: string, sub: string, i: nat) {
    i + |sub| <= |s| && s[i..i + |sub|] == sub
  }

  /** `s.startsWith(p)`: compared character by character. */
  function StartsWith(s: string, p: string): (b: bool)
    ensures b <==> |p| <= |s| && s[..|p|] == p
  {
    if p == [] then true
    else s != [] && s[0] == p[0] && StartsWith(s[1..], p[1..])
  }

  /** `s.includes(sub)`: tries every start position from the left. */
  function Includes(s: string, sub: string): (b: bool)
    ensures b <==> exists i: nat :: OccursAt(s, sub, i)
    decreases |s|
  {
    if |sub| > |s| then
      assert forall i: nat :: !OccursAt(s, sub, i);
      false
    else if StartsWith(s, sub) then
      assert OccursAt(s, sub, 0);
      true
    else
      OccursAtTail(s, sub);
      Includes(s[1..], sub)
  }

  /** A match in `s` that is not at index 0 is a match in `s[1..]`, one
      position earlier, and the other way round. */
  lemma OccursAtTail(s: string, sub: string)
    requires |s| > 0 && !OccursAt(s, sub, 0)
    ensures (exists i: nat :: OccursAt(s, sub, i)) <==> (exists i: nat :: OccursAt(s[1..], sub, i))
  {
    forall i: nat | OccursAt(s, sub, i)
      ensures OccursAt(s[1..], sub, i - 1)
    {
      assert i > 0;
      assert s[1..][i - 1..i - 1 + |sub|] == s[i..i + |sub|];
    }
    forall i: nat | OccursAt(s[1..], sub, i)
      ensures OccursAt(s, sub, i + 1)
    {
      assert s[1..][i..i + |sub|] == s[i + 1..i + 1 + |sub|];
    }
  }

  /** The leading half of `trim`: the suffix of `s` left after its leading
      whitespace. */
  function TrimStart(s: string): (r: string)
    ensures |r| <= |s| && r == s[|s| - |r|..]
    ensures r == [] || !IsWhitespace(r[0])
    ensures AllWhitespace(s[..|s| - |r|])
  {
    if s != [] && IsWhitespace(s[0]) then TrimStart(s[1..]) else s
  }

  /** The trailing half of `trim`: the prefix of `s` left after its trailing
      whitespace. */
  function TrimEnd(s: string): (r: string)
    ensures |r| <= |s| && r == s[..|r|]
    ensures r == [] || !IsWhitespace(r[|r| - 1])
    ensures AllWhitespace(s[|r|..])
  {
    if s != [] && IsWhitespace(s[|s| - 1]) then
      var r := TrimEnd(s[..|s| - 1]);
      assert s[..|s| - 1][..|r|] == s[..|r|];
      assert s[|r|..] == s[..|s| - 1][|r|..] + [s[|s| - 1]];
      r
    else s
  }

  /** `r` is what is left of `s` once whitespace is removed from both ends:
      a slice of `s` whose surroundings are whitespace only and whose ends
      are not whitespace. */
  ghost predicate IsTrimmed(s: string, r: string) {
    && (r == [] || (!IsWhitespace(r[0]) && !IsWhitespace(r[|r| - 1])))
    && exists i: nat :: TrimmedAt(s, r, i)
  }

  /** `r` sits at index `i` of `s` with only whitespace before and after. */
  predicate TrimmedAt(s: string, r: string, i: nat) {
    OccursAt(s, r, i) && AllWhitespace(s[..i]) && AllWhitespace(s[i + |r|..])
  }

  /** `s.trim()`. */
  function Trim(s: string): (r: string)
    ensures IsTrimmed(s, r)
  {
    var t := TrimStart(s);
    var r := TrimEnd(t);
    TrimBothEnds(s, t, r);
    r
  }

  /** A suffix `t` of `s` that drops only leading whitespace, cut down to
      a prefix `r` of `t` that drops only trailing whitespace, is a trimmed
      form of `s`. */
  lemma TrimBothEnds(s: string, t: string, r: string)
    requires |t| <= |s| && t == s[|s| - |t|..]
    requires t == [] || !IsWhitespace(t[0])
    requires AllWhitespace(s[..|s| - |t|])
    requires |r| <= |t| && r == t[..|r|]
    requires r == [] || !IsWhitespace(r[|r| - 1])
    requires AllWhitespace(t[|r|..])
    ensures IsTrimmed(s, r)
  {
    var i := |s| - |t|;
    assert s[i..i + |r|] == t[..|r|];
    assert s[i + |r|..] == t[|r|..];
    assert TrimmedAt(s, r, i);
    if r != [] {
      assert r[0] == t[0];
    }
  }

  /** Removing whitespace from both ends has exactly one outcome, so the
      contract of `Trim` determines it. */
  lemma TrimmedUnique(s: string, r1: string, r2: string)
    requires IsTrimmed(s, r1) && IsTrimmed(s, r2)
    ensures r1 == r2
  {
    var i1: nat :| TrimmedAt(s, r1, i1);
    var i2: nat :| TrimmedAt(s, r2, i2);
    if r1 == [] || r2 == [] {
      if r1 != [] {
        OnlyWhitespaceAround(s, i2, i1);
      } else if r2 != [] {
        OnlyWhitespaceAround(s, i1, i2);
      }
    } else {
      FirstNonWhitespace(s, i1, i2);
      FirstNonWhitespace(s, i2, i1);
      var e1, e2 := i1 + |r1| - 1, i2 + |r2| - 1;
      assert s[e1] == r1[|r1| - 1] && s[e2] == r2[|r2| - 1];
      LastNonWhitespace(s, e1, e2);
      LastNonWhitespace(s, e2, e1);
      assert r1 == s[i1..e1 + 1] == r2;
    }
  }

  /** When everything before and after index `i` is whitespace, so is the
      character at any index `j`. */
  lemma OnlyWhitespaceAround(s: string, i: nat, j: nat)
    requires i <= |s| && AllWhitespace(s[..i]) && AllWhitespace(s[i..])
    requires j < |s|
    ensures IsWhitespace(s[j])
  {
    if j < i {
      assert s[j] == s[..i][j];
    } else {
      assert s[j] == s[i..][j - i];
    }
  }

  /** A non-whitespace character at `j` cannot lie in a whitespace prefix
      ending at `i`. */
  lemma FirstNonWhitespace(s: string, i: nat, j: nat)
    requires i <= |s| && AllWhitespace(s[..i])
    requires j < |s| && !IsWhitespace(s[j])
    ensures i <= j
  {
  }

  /** A non-whitespace character at `j` cannot lie in a whitespace suffix
      starting after `i`. */
  lemma LastNonWhitespace(s: string, i: nat, j: nat)
    requires i < |s| && AllWhitespace(s[i + 1..])
    requires j < |s| && !IsWhitespace(s[j])
    ensures j <= i
  {
  }

  /** Whitespace added around a string does not change what `trim` gives. */
  lemma TrimIgnoresPadding(pre: string, s: string, suf: string)
    requires AllWhitespace(pre) && AllWhitespace(suf)
    ensures Trim(pre + s + suf) == Trim(s)
  {
    TrimmedPadded(pre, s, suf, Trim(s));
    TrimmedUnique(pre + s + suf, Trim(pre + s + suf), Trim(s));
  }

  /** A trimmed form of `s` is also one of `s` with whitespace around it. */
  lemma TrimmedPadded(pre: string, s: string, suf: string, r: string)
    requires AllWhitespace(pre) && AllWhitespace(suf) && IsTrimmed(s, r)
    ensures IsTrimmed(pre + s + suf, r)
  {
    var i: nat :| TrimmedAt(s, r, i);
    var p := pre + s + suf;
    var j := |pre| + i;
    assert p[j..j + |r|] == s[i..i + |r|];
    assert p[..j] == pre + s[..i];
    AllWhitespaceAppend(pre, s[..i]);
    assert p[j + |r|..] == s[i + |r|..] + suf;
    AllWhitespaceAppend(s[i + |r|..], suf);
    assert TrimmedAt(p, r, j);
  }

  /** Two runs of whitespace make one. */
  lemma AllWhitespaceAppend(a: string, b: string)
    requires AllWhitespace(a) && AllWhitespace(b)
    ensures AllWhitespace(a + b)
  {
  }

  /** A string that begins and ends with non-whitespace survives `trim`
      intact at the front of whatever it is followed by. */
  lemma TrimKeepsPrefix(x: string, y: string)
    requires x != [] && !IsWhitespace(x[0]) && !IsWhitespace(x[|x| - 1])
    ensures StartsWith(Trim(x + y), x)
  {
    TrimmedKeepsPrefix(x + y, Trim(x + y), x);
  }

  /** The same fact stated of any trimmed form of `s`. */
  lemma TrimmedKeepsPrefix(s: string, r: string, x: string)
    requires IsTrimmed(s, r)
    requires x != [] && StartsWith(s, x)
    requires !IsWhitespace(x[0]) && !IsWhitespace(x[|x| - 1])
    ensures StartsWith(r, x)
  {
  }

  /** `trim` is idempotent. */
  lemma TrimIdempotent(s: string)
    ensures Trim(Trim(s)) == Trim(s)
  {
  }

  /** A line-break character as the editor's text model splits lines:
      LF and CR (so CRLF, LF and CR all end a line). */
  predicate IsLineBreak(c: char) {
    c == '\n' || c == '\r'
  }

  /** `document.lineAt(0).text`: the text before the first line break, or
      the whole text when there is none; an empty document has an empty
      line 0. */
  function FirstLine(text: string): (line: string)
    ensures StartsWith(text, line)
    ensures forall k :: 0 <= k < |line| ==> !IsLineBreak(line[k])
    ensures |line| == |text| || IsLineBreak(text[|line|])
  {
    if text == [] || IsLineBreak(text[0]) then []
    else [text[0]] + FirstLine(text[1..])
  }

  /** Only the text up to the first line break decides line 0: a line
      followed by nothing, or by a line break and whatever comes after it,
      is line 0. */
  lemma {:induction false} FirstLineOfLines(line: string, tail: string)
    requires forall k :: 0 <= k < |line| ==> !IsLineBreak(line[k])
    requires tail == [] || IsLineBreak(tail[0])
    ensures FirstLine(line + tail) == line
  {
    if line == [] {
      assert line + tail == tail;
    } else {
      assert (line + tail)[1..] == line[1..] + tail;
      FirstLineOfLines(line[1..], tail);
    }
  }
}
