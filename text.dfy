/** Character classes and string helpers shared by the transcript parser and
    the analytics aggregator. Strings are `seq<char>`; case mapping is ASCII
    only; whitespace is the set JavaScript's `\s` and `String.prototype.trim`
    use. */
module Text {

  /** JavaScript `\s`: the WhiteSpace and LineTerminator code points. */
  const WHITESPACE: set<char> := {
    ' ', '\t', '\n', '\r', '\U{000B}', '\U{000C}', '\U{00A0}', '\U{1680}',
    '\U{2000}', '\U{2001}', '\U{2002}', '\U{2003}', '\U{2004}', '\U{2005}',
    '\U{2006}', '\U{2007}', '\U{2008}', '\U{2009}', '\U{200A}',
    '\U{2028}', '\U{2029}', '\U{202F}', '\U{205F}', '\U{3000}', '\U{FEFF}'}

  predicate IsSpace(c: char)
  {
    c in WHITESPACE
  }

  predicate IsDigit(c: char) { '0' <= c <= '9' }

  predicate IsUpper(c: char) { 'A' <= c <= 'Z' }

  /** A regular-expression word character, `[A-Za-z0-9_]`. */
  predicate IsWordChar(c: char)
  {
    ('a' <= c <= 'z') || IsUpper(c) || IsDigit(c) || c == '_'
  }

  function Lower(c: char): (r: char)
    ensures !IsUpper(r)
    ensures IsUpper(c) ==> r as int == c as int + 32
    ensures !IsUpper(c) ==> r == c
  {
    if IsUpper(c) then (c as int + 32) as char else c
  }

  function Upper(c: char): (r: char)
    ensures 'a' <= c <= 'z' ==> r as int == c as int - 32
    ensures !('a' <= c <= 'z') ==> r == c
  {
    if 'a' <= c <= 'z' then (c as int - 32) as char else c
  }

  /** `toLowerCase()`, restricted to ASCII letters. */
  function LowerStr(s: string): (r: string)
    ensures |r| == |s|
    ensures forall i :: 0 <= i < |s| ==> r[i] == Lower(s[i])
  {
    if s == [] then [] else [Lower(s[0])] + LowerStr(s[1..])
  }

  /** `\b` at position i of s: exactly one of the characters on either side is
      a word character (outside the string counts as a non-word). */
  predicate BoundaryAt(s: string, i: nat)
    requires i <= |s|
  {
    (i > 0 && IsWordChar(s[i - 1])) != (i < |s| && IsWordChar(s[i]))
  }

  /** s[i..] starts with w, compared case-insensitively (w is lower case). */
  predicate StartsWithCI(s: string, i: nat, w: string)
    decreases |w|
  {
    if w == [] then i <= |s|
    else i < |s| && Lower(s[i]) == w[0] && StartsWithCI(s, i + 1, w[1..])
  }

  /** s[i..] starts with w, compared exactly. */
  predicate StartsWith(s: string, i: nat, w: string)
    decreases |w|
  {
    if w == [] then i <= |s|
    else i < |s| && s[i] == w[0] && StartsWith(s, i + 1, w[1..])
  }

  /** `String.prototype.includes`: w occurs in s at or after position i. */
  predicate ContainsFrom(s: string, w: string, i: nat)
    decreases |s| - i
  {
    StartsWith(s, i, w) || (i < |s| && ContainsFrom(s, w, i + 1))
  }

  predicate Contains(s: string, w: string)
  {
    ContainsFrom(s, w, 0)
  }

  /** `replace(/\s+/g, ' ')`: every maximal run of whitespace becomes one
      space. The space stands for the run's last character. */
  function CollapseSpaces(s: string): string
  {
    CollapseFrom(s, 0)
  }

  function CollapseFrom(s: string, i: nat): string
    requires i <= |s|
    decreases |s| - i
  {
    if i == |s| then ""
    else if IsSpace(s[i]) && i + 1 < |s| && IsSpace(s[i + 1]) then CollapseFrom(s, i + 1)
    else if IsSpace(s[i]) then " " + CollapseFrom(s, i + 1)
    else [s[i]] + CollapseFrom(s, i + 1)
  }

  function TrimStart(s: string): string
  {
    if s != [] && IsSpace(s[0]) then TrimStart(s[1..]) else s
  }

  function TrimEnd(s: string): string
  {
    if s != [] && IsSpace(s[|s| - 1]) then TrimEnd(s[..|s| - 1]) else s
  }

  /** `String.prototype.trim`. */
  function Trim(s: string): string
  {
    TrimEnd(TrimStart(s))
  }

  /** JavaScript's `a <= b` on strings: lexicographic order of characters. */
  predicate LexLe(a: string, b: string)
  {
    if a == [] then true
    else if b == [] then false
    else a[0] < b[0] || (a[0] == b[0] && LexLe(a[1..], b[1..]))
  }

  /** A whole word w (lower case) at position i, compared case-insensitively,
      with a word boundary on both sides: the regular expression `\bw\b`. */
  predicate WordAt(s: string, i: nat, w: string)
    requires i <= |s|
  {
    BoundaryAt(s, i) && i + |w| <= |s| && StartsWithCI(s, i, w) && BoundaryAt(s, i + |w|)
  }

  // ---------------------------------------------------------------------
  // Facts about matching inside concatenations
  // ---------------------------------------------------------------------

  lemma {:induction false} StartsWithCIChars(s: string, i: nat, w: string)
    requires StartsWithCI(s, i, w)
    ensures i + |w| <= |s|
    ensures forall p :: i <= p < i + |w| ==> Lower(s[p]) == w[p - i]
    decreases |w|
  {
    if w != [] {
      StartsWithCIChars(s, i + 1, w[1..]);
      forall p | i <= p < i + |w|
        ensures Lower(s[p]) == w[p - i]
      {
        if p > i {
          assert w[1..][p - (i + 1)] == w[p - i];
        }
      }
    }
  }

  lemma {:induction false} StartsWithCIPrefix(a: string, b: string, i: nat, w: string)
    requires i + |w| <= |a|
    ensures StartsWithCI(a + b, i, w) == StartsWithCI(a, i, w)
    decreases |w|
  {
    if w != [] {
      StartsWithCIPrefix(a, b, i + 1, w[1..]);
    }
  }

  lemma {:induction false} StartsWithCIShift(a: string, b: string, j: nat, w: string)
    ensures StartsWithCI(a + b, |a| + j, w) == StartsWithCI(b, j, w)
    decreases |w|
  {
    if w != [] {
      StartsWithCIShift(a, b, j + 1, w[1..]);
    }
  }

  /** Text whose lower-case form is w starts with w, case-insensitively. */
  lemma {:induction false} StartsWithCIOfChars(s: string, i: nat, w: string)
    requires i + |w| <= |s|
    requires forall p :: i <= p < i + |w| ==> Lower(s[p]) == w[p - i]
    ensures StartsWithCI(s, i, w)
    decreases |w|
  {
    if w != [] {
      assert Lower(s[i]) == w[0];
      forall p | i + 1 <= p < i + 1 + |w[1..]|
        ensures Lower(s[p]) == w[1..][p - (i + 1)]
      {
        assert Lower(s[p]) == w[p - i];
      }
      StartsWithCIOfChars(s, i + 1, w[1..]);
    }
  }

  lemma StartsWithCIWhole(s: string, w: string)
    requires LowerStr(s) == w
    ensures StartsWithCI(s, 0, w)
  {
    StartsWithCIOfChars(s, 0, w);
  }

  /** A whole word whose lower-case form is w is the word w. */
  lemma WordAtWhole(s: string, w: string)
    requires LowerStr(s) == w && |s| > 0 && IsWordChar(s[0]) && IsWordChar(s[|s| - 1])
    ensures WordAt(s, 0, w)
  {
    StartsWithCIWhole(s, w);
  }

  lemma LowerOf(s: string, w: string)
    requires |s| == |w| && forall i :: 0 <= i < |s| ==> Lower(s[i]) == w[i]
    ensures LowerStr(s) == w
  {
  }

  /** A word character is never whitespace. */
  lemma WordCharNotSpace(c: char)
    requires IsWordChar(c)
    ensures !IsSpace(c)
  {
  }

  /** A lower-case keyword shape: letters and hyphens, letters at both ends. */
  predicate KeywordShape(w: string)
  {
    && |w| > 0
    && (forall k :: 0 <= k < |w| ==> ('a' <= w[k] <= 'z') || w[k] == '-')
    && 'a' <= w[0] <= 'z' && 'a' <= w[|w| - 1] <= 'z'
  }

  /** A junction between a word character and a character that is neither a
      word character nor a hyphen, in either order. No keyword match can
      straddle it. */
  predicate SafeJoin(x: char, y: char)
  {
    || (IsWordChar(x) && !IsWordChar(y) && y != '-')
    || (!IsWordChar(x) && x != '-' && IsWordChar(y))
  }

  predicate Joinable(a: string, b: string)
  {
    |a| > 0 && |b| > 0 && SafeJoin(a[|a| - 1], b[0])
  }

  lemma WordAtPrefix(a: string, b: string, i: nat, w: string)
    requires Joinable(a, b) && KeywordShape(w) && i < |a|
    ensures WordAt(a + b, i, w) == WordAt(a, i, w)
  {
    var s := a + b;
    assert BoundaryAt(s, i) == BoundaryAt(a, i);
    if i + |w| <= |a| {
      StartsWithCIPrefix(a, b, i, w);
      if StartsWithCI(a, i, w) && i + |w| == |a| {
        StartsWithCIChars(a, i, w);
        assert Lower(a[|a| - 1]) == w[|w| - 1];
      }
    } else if StartsWithCI(s, i, w) {
      StartsWithCIChars(s, i, w);
      assert Lower(s[|a| - 1]) == w[|a| - 1 - i];
      assert Lower(s[|a|]) == w[|a| - i];
    }
  }

  lemma WordAtShift(a: string, b: string, j: nat, w: string)
    requires Joinable(a, b) && KeywordShape(w) && j <= |b|
    ensures WordAt(a + b, |a| + j, w) == WordAt(b, j, w)
  {
    var s := a + b;
    StartsWithCIShift(a, b, j, w);
    if j == 0 && StartsWithCI(b, 0, w) {
      StartsWithCIChars(b, 0, w);
      assert Lower(b[0]) == w[0];
    }
  }

  lemma {:induction false} CollapseFromShift(a: string, b: string, j: nat)
    requires j <= |b|
    ensures CollapseFrom(a + b, |a| + j) == CollapseFrom(b, j)
    decreases |b| - j
  {
    if j < |b| {
      CollapseFromShift(a, b, j + 1);
    }
  }

  /** What CollapseFrom emits for position i: nothing inside a run, a space
      at the end of a run, the character itself elsewhere. */
  function CollapseHead(s: string, i: nat): string
    requires i < |s|
  {
    if IsSpace(s[i]) && i + 1 < |s| && IsSpace(s[i + 1]) then ""
    else if IsSpace(s[i]) then " "
    else [s[i]]
  }

  lemma CollapseStep(s: string, i: nat)
    requires i < |s|
    ensures CollapseFrom(s, i) == CollapseHead(s, i) + CollapseFrom(s, i + 1)
  {
  }

  lemma CollapseHeadJoin(a: string, b: string, i: nat)
    requires i < |a|
    requires |b| > 0 ==> !(IsSpace(a[|a| - 1]) && IsSpace(b[0]))
    ensures CollapseHead(a + b, i) == CollapseHead(a, i)
  {
    assert (a + b)[i] == a[i];
    if i + 1 < |a| {
      assert (a + b)[i + 1] == a[i + 1];
    }
  }

  lemma {:induction false} CollapseFromJoin(a: string, b: string, i: nat)
    requires i <= |a|
    requires |a| > 0 && |b| > 0 ==> !(IsSpace(a[|a| - 1]) && IsSpace(b[0]))
    ensures CollapseFrom(a + b, i) == CollapseFrom(a, i) + CollapseSpaces(b)
    decreases |a| - i
  {
    if i == |a| {
      CollapseFromShift(a, b, 0);
    } else {
      CollapseFromJoin(a, b, i + 1);
      CollapseStep(a + b, i);
      CollapseStep(a, i);
      CollapseHeadJoin(a, b, i);
      var h := CollapseHead(a, i);
      assert h + (CollapseFrom(a, i + 1) + CollapseSpaces(b))
        == (h + CollapseFrom(a, i + 1)) + CollapseSpaces(b);
    }
  }

  /** `replace(/\s+/g, ' ')` distributes over a junction without whitespace
      on both sides. */
  lemma CollapseJoin(a: string, b: string)
    requires |a| > 0 && |b| > 0 ==> !(IsSpace(a[|a| - 1]) && IsSpace(b[0]))
    ensures CollapseSpaces(a + b) == CollapseSpaces(a) + CollapseSpaces(b)
  {
    CollapseFromJoin(a, b, 0);
  }

  lemma TrimUnchanged(s: string)
    requires s != [] ==> !IsSpace(s[0]) && !IsSpace(s[|s| - 1])
    ensures Trim(s) == s
  {
  }

  /** Whitespace, where there is any, is a single ' ' between non-spaces. */
  predicate SingleSpaced(s: string)
  {
    forall i :: 0 <= i < |s| && IsSpace(s[i]) ==> s[i] == ' ' && (i + 1 < |s| ==> !IsSpace(s[i + 1]))
  }

  lemma {:induction false} SingleSpacedCollapseFrom(s: string, i: nat)
    requires SingleSpaced(s) && i <= |s|
    ensures CollapseFrom(s, i) == s[i..]
    decreases |s| - i
  {
    if i < |s| {
      SingleSpacedCollapseFrom(s, i + 1);
      assert s[i..] == [s[i]] + s[i + 1..];
    }
  }

  /** Text already single-spaced is left alone by the whitespace collapse. */
  lemma SingleSpacedCollapse(s: string)
    requires SingleSpaced(s)
    ensures CollapseSpaces(s) == s
  {
    SingleSpacedCollapseFrom(s, 0);
  }
}
