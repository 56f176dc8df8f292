/** What the passes of the transcript parser do to the small pieces a
    transcript is made of: runs of word characters, runs without word
    characters, and separator runs. */
module TranscriptPieces {
  import opened Text
  import opened Wrappers
  import opened VoiceParsing
  import opened TranscriptJoins

  /** A non-empty run of word characters. */
  predicate IsWord(w: string)
  {
    |w| > 0 && forall i :: 0 <= i < |w| ==> IsWordChar(w[i])
  }

  /** Text without word characters: `\b` matches nowhere inside it. */
  predicate NoWordChars(s: string)
  {
    forall i :: 0 <= i < |s| ==> !IsWordChar(s[i])
  }

  predicate AllSeparators(s: string)
  {
    forall i :: 0 <= i < |s| ==> IsSeparator(s[i])
  }

  /** The text ends in "sub", compared case-insensitively. */
  predicate EndsSub(s: string)
  {
    |s| >= 3 && StartsWithCI(s, |s| - 3, "sub")
  }

  // ---------------------------------------------------------------------
  // Keyword lookups
  // ---------------------------------------------------------------------

  /** The keyword FirstKeyword reports is there, as a whole word. */
  lemma {:induction false} FirstKeywordFound(s: string, q: nat, ws: seq<string>)
    requires q <= |s| && FirstKeyword(s, q, ws).Some?
    ensures WordAt(s, q, FirstKeyword(s, q, ws).value)
    decreases |ws|
  {
    if !WordAt(s, q, ws[0]) {
      FirstKeywordFound(s, q, ws[1..]);
    }
  }

  /** The keyword alternatives written out in the order they are tried. */
  lemma KeywordAtCases(s: string, q: nat)
    requires q <= |s|
    ensures KeywordAt(s, q) ==
      if WordAt(s, q, "from") then Some("from")
      else if WordAt(s, q, "to") then Some("to")
      else if WordAt(s, q, "category") then Some("category")
      else if WordAt(s, q, "sub-category") then Some("sub-category")
      else if WordAt(s, q, "description") then Some("description")
      else None
  {
    var w0 := KEYWORDS;
    var w1 := ["to", "category", "sub-category", "description"];
    var w2 := ["category", "sub-category", "description"];
    var w3 := ["sub-category", "description"];
    var w4 := ["description"];
    assert w0[1..] == w1 && w1[1..] == w2 && w2[1..] == w3 && w3[1..] == w4 && w4[1..] == [];
    assert FirstKeyword(s, q, w4) == if WordAt(s, q, "description") then Some("description") else None;
    assert FirstKeyword(s, q, w3) == if WordAt(s, q, "sub-category") then Some("sub-category") else FirstKeyword(s, q, w4);
    assert FirstKeyword(s, q, w2) == if WordAt(s, q, "category") then Some("category") else FirstKeyword(s, q, w3);
    assert FirstKeyword(s, q, w1) == if WordAt(s, q, "to") then Some("to") else FirstKeyword(s, q, w2);
  }

  // ---------------------------------------------------------------------
  // Runs of word characters
  // ---------------------------------------------------------------------

  lemma {:induction false} WordStripColonFrom(w: string, q: nat)
    requires IsWord(w) && 0 < q <= |w|
    ensures StripColonFrom(w, q) == w[q..]
    decreases |w| - q
  {
    if q < |w| {
      assert !BoundaryAt(w, q);
      WordStripColonFrom(w, q + 1);
      assert w[q..] == [w[q]] + w[q + 1..];
    }
  }

  /** Inside a word there is no `\b`, so only a "colon" at its start could go. */
  lemma WordStripColon(w: string)
    requires IsWord(w) && !ColonAt(w, 0)
    ensures StripColon(w) == w
  {
    WordStripColonFrom(w, 1);
    assert w == [w[0]] + w[1..];
  }

  lemma {:induction false} WordCanonSubFrom(w: string, q: nat)
    requires IsWord(w) && 0 < q <= |w|
    ensures CanonSubFrom(w, q) == w[q..]
    decreases |w| - q
  {
    if q < |w| {
      if SubMatchLength(w, q).Some? {
        SubMatchLengthSound(w, q);
        assert false;
      }
      WordCanonSubFrom(w, q + 1);
      CanonSubStepCopy(w, q);
      assert w[q..] == [w[q]] + w[q + 1..];
    }
  }

  lemma WordCanonSub(w: string)
    requires IsWord(w) && SubMatchLength(w, 0).None?
    ensures CanonSub(w) == w
  {
    WordCanonSubFrom(w, 1);
    CanonSubStepCopy(w, 0);
    assert w == [w[0]] + w[1..];
  }

  /** Text that is one whole sub-category match becomes "sub-category". */
  lemma WholeSubMatch(s: string)
    requires |s| > 0 && SubMatchLength(s, 0) == Some(|s|)
    ensures CanonSub(s) == "sub-category"
  {
    CanonSubStepMatch(s, 0, |s|);
  }

  lemma {:induction false} WordSplitFrom(w: string, p: nat, q: nat)
    requires IsWord(w) && 0 < q <= |w| && p <= q
    ensures SplitWith(w, KEYWORDS, p, q) == [w[p..]]
    decreases |w| - q
  {
    if q < |w| {
      if KeywordAt(w, q).Some? {
        FirstKeywordFound(w, q, KEYWORDS);
        assert false;
      }
      WordSplitFrom(w, p, q + 1);
      SplitStepNone(w, KEYWORDS, p, q);
    }
  }

  lemma WordSplit(w: string)
    requires IsWord(w) && KeywordAt(w, 0).None?
    ensures SplitOnKeywords(w) == [w]
  {
    SplitStepNone(w, KEYWORDS, 0, 0);
    WordSplitFrom(w, 0, 1);
  }

  /** A text that is one keyword match from end to end splits into the empty
      text, the keyword, and the empty text. */
  lemma KeywordSplitWhole(s: string, k: string)
    requires |s| > 0 && KeywordAt(s, 0) == Some(k) && |k| == |s|
    ensures SplitOnKeywords(s) == ["", s, ""]
  {
    SplitStepSome(s, KEYWORDS, 0, 0, k);
    assert s[0..0] == "" && s[0..|k|] == s;
    assert s[|s|..] == "";
    assert SplitWith(s, KEYWORDS, |s|, |s|) == [""];
  }

  /** A keyword match at the start of a word covers the whole word. */
  lemma WordKeywordLength(w: string)
    requires IsWord(w) && KeywordAt(w, 0).Some?
    ensures |KeywordAt(w, 0).value| == |w|
  {
    var k := KeywordAt(w, 0).value;
    FirstKeywordFound(w, 0, KEYWORDS);
    KeywordsShape();
    assert KeywordShape(k);
    if |k| < |w| {
      assert false;
    }
  }

  /** A word the keyword pattern matches at its start is the keyword itself,
      and splits into the empty text, the keyword, and the empty text. */
  lemma WordKeywordSplit(w: string)
    requires IsWord(w) && KeywordAt(w, 0).Some?
    ensures SplitOnKeywords(w) == ["", w, ""]
  {
    WordKeywordLength(w);
    KeywordSplitWhole(w, KeywordAt(w, 0).value);
  }

  // ---------------------------------------------------------------------
  // Text without word characters
  // ---------------------------------------------------------------------

  lemma {:induction false} BlankStripColonFrom(s: string, q: nat)
    requires NoWordChars(s) && q <= |s|
    ensures StripColonFrom(s, q) == s[q..]
    decreases |s| - q
  {
    if q < |s| {
      assert !BoundaryAt(s, q);
      BlankStripColonFrom(s, q + 1);
      assert s[q..] == [s[q]] + s[q + 1..];
    }
  }

  lemma {:induction false} BlankCanonSubFrom(s: string, q: nat)
    requires NoWordChars(s) && q <= |s|
    ensures CanonSubFrom(s, q) == s[q..]
    decreases |s| - q
  {
    if q < |s| {
      if SubMatchLength(s, q).Some? {
        SubMatchLengthSound(s, q);
        assert false;
      }
      BlankCanonSubFrom(s, q + 1);
      CanonSubStepCopy(s, q);
      assert s[q..] == [s[q]] + s[q + 1..];
    }
  }

  lemma {:induction false} BlankSplitFrom(s: string, p: nat, q: nat)
    requires NoWordChars(s) && p <= q <= |s|
    ensures SplitWith(s, KEYWORDS, p, q) == [s[p..]]
    decreases |s| - q
  {
    if q < |s| {
      if KeywordAt(s, q).Some? {
        FirstKeywordFound(s, q, KEYWORDS);
        assert false;
      }
      BlankSplitFrom(s, p, q + 1);
      SplitStepNone(s, KEYWORDS, p, q);
    }
  }

  /** Punctuation and whitespace pass through the colon, sub-category and
      split passes untouched. */
  lemma BlankPasses(s: string)
    requires NoWordChars(s)
    ensures StripColon(s) == s && CanonSub(s) == s && SplitOnKeywords(s) == [s]
  {
    BlankStripColonFrom(s, 0);
    BlankCanonSubFrom(s, 0);
    BlankSplitFrom(s, 0, 0);
  }

  // ---------------------------------------------------------------------
  // Whitespace and separators
  // ---------------------------------------------------------------------

  lemma {:induction false} DropLeadingAll(l: string, v: string)
    requires AllSeparators(l) && v != [] && !IsSeparator(v[0])
    ensures DropLeadingSeparators(l + v) == v
    decreases |l|
  {
    if l != [] {
      assert (l + v)[1..] == l[1..] + v;
      DropLeadingAll(l[1..], v);
    }
  }

  lemma {:induction false} DropTrailingAll(v: string, t: string)
    requires AllSeparators(t) && v != [] && !IsSeparator(v[|v| - 1])
    ensures DropTrailingSeparators(v + t) == v
    decreases |t|
  {
    if t != [] {
      assert (v + t)[..|v + t| - 1] == v + t[..|t| - 1];
      DropTrailingAll(v, t[..|t| - 1]);
    } else {
      assert v + t == v;
    }
  }

  lemma {:induction false} DropLeadingGap(x: string, g: string)
    requires x != [] && !IsSeparator(x[|x| - 1])
    ensures DropLeadingSeparators(x + g) == DropLeadingSeparators(x) + g
    ensures DropLeadingSeparators(x) != []
    ensures DropLeadingSeparators(x)[|DropLeadingSeparators(x)| - 1] == x[|x| - 1]
    decreases |x|
  {
    if IsSeparator(x[0]) {
      assert (x + g)[1..] == x[1..] + g;
      DropLeadingGap(x[1..], g);
    }
  }

  /** Separators after the last proper character of a segment are stripped. */
  lemma StripSeparatorsGap(x: string, g: string)
    requires x != [] && !IsSeparator(x[|x| - 1]) && AllSeparators(g)
    ensures StripSeparators(x + g) == StripSeparators(x)
  {
    DropLeadingGap(x, g);
    var d := DropLeadingSeparators(x);
    DropTrailingAll(d, g);
    DropTrailingAll(d, "");
    assert d + "" == d;
  }

  /** A segment made of separators and then a value with proper characters at
      both ends strips down to the value. */
  lemma StripSeparatorsLead(l: string, v: string)
    requires AllSeparators(l) && v != [] && !IsSeparator(v[0]) && !IsSeparator(v[|v| - 1])
    ensures StripSeparators(l + v) == v
  {
    DropLeadingAll(l, v);
    DropTrailingAll(v, "");
    assert v + "" == v;
  }

  // ---------------------------------------------------------------------
  // A trailing "sub" and a leading "category"
  // ---------------------------------------------------------------------

  lemma EndsSubChars(s: string)
    requires EndsSub(s)
    ensures Lower(s[|s| - 1]) == 'b' && Lower(s[|s| - 2]) == 'u' && Lower(s[|s| - 3]) == 's'
  {
    StartsWithCIChars(s, |s| - 3, "sub");
  }

  /** Text ending in "sub" after a non-word character has the "sub" in its
      last part. */
  lemma EndsSubSuffix(p: string, v: string)
    requires p != [] && !IsWordChar(p[|p| - 1]) && EndsSub(p + v)
    ensures EndsSub(v)
  {
    var s := p + v;
    if |v| >= 3 {
      StartsWithCIShift(p, v, |v| - 3, "sub");
      assert |s| - 3 == |p| + (|v| - 3);
    } else {
      EndsSubChars(s);
      assert false;
    }
  }

  /** Text starting with "category" before a non-letter has it in its first part. */
  lemma StartsCategoryPrefix(v: string, t: string)
    requires t != [] && !IsWordChar(t[0]) && StartsWithCI(v + t, 0, "category")
    ensures StartsWithCI(v, 0, "category")
  {
    if |v| >= 8 {
      StartsWithCIPrefix(v, t, 0, "category");
    } else {
      assert false;
    }
  }
}
