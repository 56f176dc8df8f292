/** How the passes of the transcript parser behave on a concatenation: each
    pass of a text `a + b` is the pass of `a` followed by the pass of `b`
    when nothing the pass looks for can straddle the junction. */
module TranscriptJoins {
  import opened Text
  import opened VoiceParsing
  import opened Wrappers

  lemma ColonShape()
    ensures KeywordShape("colon")
  {
  }

  lemma KeywordsShape()
    ensures forall w :: w in KEYWORDS ==> KeywordShape(w)
  {
    assert KeywordShape("from");
    assert KeywordShape("to");
    assert KeywordShape("category");
    assert KeywordShape("sub-category");
    assert KeywordShape("description");
  }

  // ---------------------------------------------------------------------
  // Tails: every scan from position i looks only at the text from i on and
  // at whether the character before i is a word character.
  // ---------------------------------------------------------------------

  predicate WordBefore(s: string, i: nat)
    requires i <= |s|
  {
    i > 0 && IsWordChar(s[i - 1])
  }

  /** s read from i and t read from j are the same text, each preceded by a
      word character or each not. */
  predicate SameTail(s: string, i: nat, t: string, j: nat)
  {
    i <= |s| && j <= |t| && s[i..] == t[j..] && WordBefore(s, i) == WordBefore(t, j)
  }

  lemma TailChars(s: string, i: nat, t: string, j: nat, d: nat)
    requires i <= |s| && j <= |t| && s[i..] == t[j..] && i + d <= |s|
    ensures j + d <= |t| && s[i + d..] == t[j + d..]
    ensures i + d < |s| ==> s[i + d] == t[j + d]
    ensures d > 0 ==> s[i + d - 1] == t[j + d - 1]
  {
    assert s[i + d..] == s[i..][d..] && t[j + d..] == t[j..][d..];
    if i + d < |s| {
      assert s[i + d] == s[i..][d] && t[j + d] == t[j..][d];
    }
    if d > 0 {
      assert s[i + d - 1] == s[i..][d - 1] && t[j + d - 1] == t[j..][d - 1];
    }
  }

  lemma {:induction false} StartsWithCITail(s: string, i: nat, t: string, j: nat, w: string)
    requires i <= |s| && j <= |t| && s[i..] == t[j..]
    ensures StartsWithCI(s, i, w) == StartsWithCI(t, j, w)
    decreases |w|
  {
    if w != [] && i < |s| {
      TailChars(s, i, t, j, 1);
      StartsWithCITail(s, i + 1, t, j + 1, w[1..]);
    }
  }

  lemma BoundaryTail(s: string, i: nat, t: string, j: nat, d: nat)
    requires i <= |s| && j <= |t| && s[i..] == t[j..] && 0 < d && i + d <= |s|
    ensures BoundaryAt(s, i + d) == BoundaryAt(t, j + d)
  {
    TailChars(s, i, t, j, d);
  }

  lemma WindowTail(s: string, i: nat, t: string, j: nat, x: nat, y: nat)
    requires i <= |s| && j <= |t| && s[i..] == t[j..] && x <= y && i + y <= |s|
    ensures s[i + x..i + y] == t[j + x..j + y]
  {
    assert s[i + x..i + y] == s[i..][x..y];
    assert t[j + x..j + y] == t[j..][x..y];
  }

  lemma WordAtTail(s: string, i: nat, t: string, j: nat, w: string)
    requires SameTail(s, i, t, j) && |w| > 0
    ensures WordAt(s, i, w) == WordAt(t, j, w)
  {
    assert BoundaryAt(s, i) == BoundaryAt(t, j) by {
      TailChars(s, i, t, j, 0);
    }
    assert StartsWithCI(s, i, w) == StartsWithCI(t, j, w) by {
      StartsWithCITail(s, i, t, j, w);
    }
    if i + |w| <= |s| {
      assert BoundaryAt(s, i + |w|) == BoundaryAt(t, j + |w|) by {
        BoundaryTail(s, i, t, j, |w|);
      }
    }
  }

  /** Moving both positions forward by d keeps the tails the same. */
  lemma SameTailStep(s: string, i: nat, t: string, j: nat, d: nat)
    requires SameTail(s, i, t, j) && 0 < d && i + d <= |s|
    ensures SameTail(s, i + d, t, j + d)
  {
    TailChars(s, i, t, j, d);
  }

  lemma SliceShift(a: string, b: string, x: nat, y: nat)
    requires x <= y <= |b|
    ensures (a + b)[|a| + x..|a| + y] == b[x..y]
  {
  }

  /** A tail of b inside `a + b` is the same tail as in b. */
  lemma ShiftTail(a: string, b: string, j: nat)
    requires 0 < j <= |b|
    ensures SameTail(a + b, |a| + j, b, j)
  {
    SliceShift(a, b, j, |b|);
    assert (a + b)[|a| + j - 1] == b[j - 1];
  }

  // ---------------------------------------------------------------------
  // The "colon" pass
  // ---------------------------------------------------------------------

  lemma {:induction false} StripColonTail(s: string, i: nat, t: string, j: nat)
    requires SameTail(s, i, t, j)
    ensures StripColonFrom(s, i) == StripColonFrom(t, j)
    decreases |s| - i
  {
    if i < |s| {
      WordAtTail(s, i, t, j, "colon");
      TailChars(s, i, t, j, 0);
      if ColonAt(s, i) {
        SameTailStep(s, i, t, j, 5);
        StripColonTail(s, i + 5, t, j + 5);
      } else {
        SameTailStep(s, i, t, j, 1);
        StripColonTail(s, i + 1, t, j + 1);
      }
    }
  }

  lemma StripColonShift(a: string, b: string, j: nat)
    requires 0 < j <= |b|
    ensures StripColonFrom(a + b, |a| + j) == StripColonFrom(b, j)
  {
    ShiftTail(a, b, j);
    StripColonTail(a + b, |a| + j, b, j);
  }

  /** Across a safe junction, the scan of `a + b` from b's start is the scan
      of b. */
  lemma StripColonStart(a: string, b: string)
    requires Joinable(a, b)
    ensures StripColonFrom(a + b, |a|) == StripColon(b)
  {
    ColonShape();
    WordAtShift(a, b, 0, "colon");
    if ColonAt(b, 0) {
      StripColonShift(a, b, 5);
    } else {
      StripColonShift(a, b, 1);
      assert (a + b)[|a|] == b[0];
    }
  }

  lemma {:induction false} StripColonJoinFrom(a: string, b: string, i: nat)
    requires Joinable(a, b) && i <= |a|
    ensures StripColonFrom(a + b, i) == StripColonFrom(a, i) + StripColon(b)
    decreases |a| - i
  {
    if i == |a| {
      StripColonStart(a, b);
    } else {
      ColonShape();
      WordAtPrefix(a, b, i, "colon");
      if ColonAt(a, i) {
        StripColonJoinFrom(a, b, i + 5);
      } else {
        StripColonJoinFrom(a, b, i + 1);
      }
    }
  }

  /** Stripping "colon" distributes over a safe junction. */
  lemma StripColonJoin(a: string, b: string)
    requires Joinable(a, b)
    ensures StripColon(a + b) == StripColon(a) + StripColon(b)
  {
    StripColonJoinFrom(a, b, 0);
  }

  // ---------------------------------------------------------------------
  // The sub-category pass
  // ---------------------------------------------------------------------

  /** A junction no sub-category match can straddle: a word character then a
      non-word character (and, before whitespace or a hyphen, the text does
      not end in "sub"), or a non-word character then a word character (and
      either the next text does not start with "category", or the character
      before the junction is neither a middle character nor preceded by a
      "sub" that would reach across it). */
  predicate SubJoin(a: string, b: string)
  {
    && |a| > 0 && |b| > 0
    && var x, y := a[|a| - 1], b[0];
       || (IsWordChar(x) && !IsWordChar(y)
           && (!IsSubMid(y) || !(|a| >= 3 && StartsWithCI(a, |a| - 3, "sub"))))
       || (!IsWordChar(x) && IsWordChar(y)
           && (|| !IsSubMid(x)
               || !StartsWithCI(b, 0, "category")
               || ((|a| < 2 || !IsSubMid(a[|a| - 2])) && !(|a| >= 4 && StartsWithCI(a, |a| - 4, "sub")))))
  }

  lemma SubMiddleChars(m: string)
    requires IsSubMiddle(m)
    ensures |m| <= 3 && forall t :: 0 <= t < |m| ==> IsSubMid(m[t]) && !IsWordChar(m[t])
  {
  }

  /** A character that lower-cases to a letter is a word character. */
  lemma LetterOfLower(c: char)
    requires 'a' <= Lower(c) <= 'z'
    ensures IsWordChar(c)
  {
  }

  /** Text that matches a word of letters, case-insensitively, is made of
      word characters. */
  lemma LettersMatched(s: string, i: nat, w: string)
    requires StartsWithCI(s, i, w) && forall t :: 0 <= t < |w| ==> 'a' <= w[t] <= 'z'
    ensures i + |w| <= |s| && forall p :: i <= p < i + |w| ==> IsWordChar(s[p])
  {
    StartsWithCIChars(s, i, w);
    forall p | i <= p < i + |w|
      ensures IsWordChar(s[p])
    {
      LetterOfLower(s[p]);
    }
  }

  lemma MiddleMatched(s: string, i: nat, k: nat)
    requires i + 3 + k <= |s| && IsSubMiddle(s[i + 3..i + 3 + k])
    ensures k <= 3 && forall p :: i + 3 <= p < i + 3 + k ==> IsSubMid(s[p]) && !IsWordChar(s[p])
  {
    var m := s[i + 3..i + 3 + k];
    SubMiddleChars(m);
    forall p | i + 3 <= p < i + 3 + k
      ensures IsSubMid(s[p]) && !IsWordChar(s[p])
    {
      assert s[p] == m[p - (i + 3)];
    }
  }

  /** The characters of a sub-category match of middle length k at i. */
  lemma SubMatchChars(s: string, i: nat, k: nat)
    requires i <= |s| && SubMatchAt(s, i, k)
    ensures k <= 3
    ensures forall p :: i <= p < i + 3 ==> IsWordChar(s[p])
    ensures Lower(s[i + 2]) == 'b'
    ensures forall p :: i + 3 <= p < i + 3 + k ==> IsSubMid(s[p]) && !IsWordChar(s[p])
    ensures forall p :: i + 3 + k <= p < i + 11 + k ==> IsWordChar(s[p])
  {
    LettersMatched(s, i, "sub");
    StartsWithCIChars(s, i, "sub");
    LettersMatched(s, i + 3 + k, "category");
    MiddleMatched(s, i, k);
  }

  /** No sub-category match straddles a SubJoin junction. */
  lemma SubMatchNoStraddle(a: string, b: string, i: nat, k: nat)
    requires SubJoin(a, b) && i < |a| < i + 11 + k
    ensures !SubMatchAt(a + b, i, k)
  {
    var s := a + b;
    if SubMatchAt(s, i, k) {
      SubMatchChars(s, i, k);
      var P := |a| - 1;
      assert s[P] == a[|a| - 1] && s[P + 1] == b[0];
      if P == i + 2 && k > 0 {
        StartsWithCIPrefix(a, b, i, "sub");
        assert false;
      } else if i + 3 <= P < i + 3 + k && P + 1 == i + 3 + k {
        StartsWithCIShift(a, b, 0, "category");
        StartsWithCIPrefix(a, b, i, "sub");
        assert false;
      } else {
        assert false;
      }
    }
  }

  lemma SubMatchPrefix(a: string, b: string, i: nat, k: nat)
    requires SubJoin(a, b) && i < |a|
    ensures SubMatchAt(a + b, i, k) == SubMatchAt(a, i, k)
  {
    var s := a + b;
    assert BoundaryAt(s, i) == BoundaryAt(a, i);
    if i + 11 + k <= |a| {
      StartsWithCIPrefix(a, b, i, "sub");
      StartsWithCIPrefix(a, b, i + 3 + k, "category");
      assert s[i + 3..i + 3 + k] == a[i + 3..i + 3 + k];
      if SubMatchAt(a, i, k) && i + 11 + k == |a| {
        SubMatchChars(a, i, k);
        assert IsWordChar(a[|a| - 1]);
      }
    } else {
      SubMatchNoStraddle(a, b, i, k);
    }
  }

  lemma BoundaryShift(a: string, b: string, j: nat)
    requires 0 < j <= |b|
    ensures BoundaryAt(a + b, |a| + j) == BoundaryAt(b, j)
  {
    assert (a + b)[|a| + j - 1] == b[j - 1];
    if j < |b| {
      assert (a + b)[|a| + j] == b[j];
    }
  }

  /** A SubJoin junction before a word character is a word boundary. */
  lemma SubJoinBoundary(a: string, b: string)
    requires SubJoin(a, b) && IsWordChar(b[0])
    ensures BoundaryAt(a + b, |a|) && BoundaryAt(b, 0)
  {
    assert (a + b)[|a| - 1] == a[|a| - 1] && (a + b)[|a|] == b[0];
  }

  lemma SubStartWord(s: string, i: nat)
    requires StartsWithCI(s, i, "sub")
    ensures i < |s| && IsWordChar(s[i])
  {
    assert Lower(s[i]) == 's';
  }

  /** Matching at the start of b inside `a + b` is matching at the start of
      b when the junction is a word boundary before a word character. */
  lemma SubMatchStart(a: string, b: string, k: nat)
    requires |b| > 0 && (IsWordChar(b[0]) ==> BoundaryAt(a + b, |a|) && BoundaryAt(b, 0))
    ensures SubMatchAt(a + b, |a|, k) == SubMatchAt(b, 0, k)
  {
    assert StartsWithCI(a + b, |a|, "sub") == StartsWithCI(b, 0, "sub") by {
      StartsWithCIShift(a, b, 0, "sub");
    }
    if StartsWithCI(b, 0, "sub") {
      SubStartWord(b, 0);
      assert StartsWithCI(a + b, |a| + 3 + k, "category") == StartsWithCI(b, 3 + k, "category") by {
        StartsWithCIShiftTo(a, b, 3 + k, |a| + 3 + k, "category");
      }
      if 3 + k + 8 <= |b| {
        assert (a + b)[|a| + 3..|a| + 3 + k] == b[3..3 + k] by {
          SliceShift(a, b, 3, 3 + k);
        }
        assert BoundaryAt(a + b, |a| + 3 + k + 8) == BoundaryAt(b, 3 + k + 8) by {
          BoundaryShiftTo(a, b, 3 + k + 8, |a| + 3 + k + 8);
        }
      }
    }
  }

  lemma StartsWithCIShiftTo(a: string, b: string, j: nat, x: nat, w: string)
    requires x == |a| + j
    ensures StartsWithCI(a + b, x, w) == StartsWithCI(b, j, w)
  {
    StartsWithCIShift(a, b, j, w);
  }

  lemma BoundaryShiftTo(a: string, b: string, j: nat, x: nat)
    requires 0 < j <= |b| && x == |a| + j
    ensures BoundaryAt(a + b, x) == BoundaryAt(b, j)
  {
    BoundaryShift(a, b, j);
  }

  /** A match at i in s is found at j in t when the same middle lengths
      match at both. */
  lemma SubMatchCarries(s: string, i: nat, t: string, j: nat)
    requires i <= |s| && j <= |t|
    requires forall k :: k <= 3 ==> SubMatchAt(s, i, k) == SubMatchAt(t, j, k)
    ensures SubMatchLength(s, i).Some? ==> SubMatchLength(t, j) == SubMatchLength(s, i)
  {
    if SubMatchLength(s, i).Some? {
      SubMatchLengthSound(s, i);
      var k: nat := SubMatchLength(s, i).value - 11;
      SubMatchLengthComplete(t, j, k);
    }
  }

  /** Two positions where the sub-category pattern matches with the same
      middle lengths have the same match length. */
  lemma SubMatchSame(s: string, i: nat, t: string, j: nat)
    requires i <= |s| && j <= |t|
    requires forall k :: k <= 3 ==> SubMatchAt(s, i, k) == SubMatchAt(t, j, k)
    ensures SubMatchLength(t, j) == SubMatchLength(s, i)
  {
    SubMatchCarries(s, i, t, j);
    SubMatchCarries(t, j, s, i);
  }

  lemma SubMatchLengthPrefix(a: string, b: string, i: nat)
    requires SubJoin(a, b) && i < |a|
    ensures SubMatchLength(a + b, i) == SubMatchLength(a, i)
  {
    forall k | k <= 3
      ensures SubMatchAt(a, i, k) == SubMatchAt(a + b, i, k)
    {
      SubMatchPrefix(a, b, i, k);
    }
    SubMatchSame(a, i, a + b, i);
  }

  lemma SubMatchLengthStart(a: string, b: string)
    requires SubJoin(a, b)
    ensures SubMatchLength(a + b, |a|) == SubMatchLength(b, 0)
  {
    if IsWordChar(b[0]) {
      SubJoinBoundary(a, b);
    }
    forall k | k <= 3
      ensures SubMatchAt(b, 0, k) == SubMatchAt(a + b, |a|, k)
    {
      SubMatchStart(a, b, k);
    }
    SubMatchSame(b, 0, a + b, |a|);
  }

  lemma CanonSubStepMatch(s: string, i: nat, n: nat)
    requires i < |s| && SubMatchLength(s, i) == Some(n)
    ensures CanonSubFrom(s, i) == "sub-category" + CanonSubFrom(s, i + n)
  {
  }

  lemma CanonSubStepCopy(s: string, i: nat)
    requires i < |s| && SubMatchLength(s, i).None?
    ensures CanonSubFrom(s, i) == [s[i]] + CanonSubFrom(s, i + 1)
  {
  }

  /** Two scans that agree after a match of the same length agree before it. */
  lemma StepsAgreeMatch(s: string, i: nat, t: string, j: nat, n: nat)
    requires i < |s| && j < |t|
    requires SubMatchLength(s, i) == Some(n) && SubMatchLength(t, j) == Some(n)
    requires CanonSubFrom(s, i + n) == CanonSubFrom(t, j + n)
    ensures CanonSubFrom(s, i) == CanonSubFrom(t, j)
  {
    CanonSubStepMatch(s, i, n);
    CanonSubStepMatch(t, j, n);
  }

  /** Two scans that copy the same character and then agree, agree. */
  lemma StepsAgreeCopy(s: string, i: nat, t: string, j: nat)
    requires i < |s| && j < |t| && s[i] == t[j]
    requires SubMatchLength(s, i).None? && SubMatchLength(t, j).None?
    requires CanonSubFrom(s, i + 1) == CanonSubFrom(t, j + 1)
    ensures CanonSubFrom(s, i) == CanonSubFrom(t, j)
  {
    CanonSubStepCopy(s, i);
    CanonSubStepCopy(t, j);
  }

  lemma SubMatchTail(s: string, i: nat, t: string, j: nat, k: nat)
    requires SameTail(s, i, t, j)
    ensures SubMatchAt(s, i, k) == SubMatchAt(t, j, k)
  {
    assert BoundaryAt(s, i) == BoundaryAt(t, j) by {
      TailChars(s, i, t, j, 0);
    }
    assert StartsWithCI(s, i, "sub") == StartsWithCI(t, j, "sub") by {
      StartsWithCITail(s, i, t, j, "sub");
    }
    if i + 3 + k + 8 <= |s| {
      assert j + 3 + k + 8 <= |t| && s[i + 3 + k..] == t[j + 3 + k..] by {
        TailChars(s, i, t, j, 3 + k);
      }
      assert StartsWithCI(s, i + 3 + k, "category") == StartsWithCI(t, j + 3 + k, "category") by {
        StartsWithCITail(s, i + 3 + k, t, j + 3 + k, "category");
      }
      assert s[i + 3..i + 3 + k] == t[j + 3..j + 3 + k] by {
        WindowTail(s, i, t, j, 3, 3 + k);
      }
      assert BoundaryAt(s, i + 3 + k + 8) == BoundaryAt(t, j + 3 + k + 8) by {
        BoundaryTail(s, i, t, j, 3 + k + 8);
      }
    }
  }

  lemma SubMatchLengthTail(s: string, i: nat, t: string, j: nat)
    requires SameTail(s, i, t, j)
    ensures SubMatchLength(t, j) == SubMatchLength(s, i)
  {
    forall k | k <= 3
      ensures SubMatchAt(s, i, k) == SubMatchAt(t, j, k)
    {
      SubMatchTail(s, i, t, j, k);
    }
    SubMatchSame(s, i, t, j);
  }

  lemma {:induction false} CanonSubTail(s: string, i: nat, t: string, j: nat)
    requires SameTail(s, i, t, j)
    ensures CanonSubFrom(s, i) == CanonSubFrom(t, j)
    decreases |s| - i
  {
    if i < |s| {
      SubMatchLengthTail(s, i, t, j);
      TailChars(s, i, t, j, 0);
      match SubMatchLength(s, i)
      case Some(n) =>
        SameTailStep(s, i, t, j, n);
        CanonSubTail(s, i + n, t, j + n);
        StepsAgreeMatch(s, i, t, j, n);
      case None =>
        SameTailStep(s, i, t, j, 1);
        CanonSubTail(s, i + 1, t, j + 1);
        StepsAgreeCopy(s, i, t, j);
    }
  }

  /** Inside b, the scan of `a + b` is the scan of b. */
  lemma CanonSubShift(a: string, b: string, j: nat)
    requires 0 < j <= |b|
    ensures CanonSubFrom(a + b, |a| + j) == CanonSubFrom(b, j)
  {
    ShiftTail(a, b, j);
    CanonSubTail(a + b, |a| + j, b, j);
  }

  lemma CanonSubStartMatch(a: string, b: string, n: nat)
    requires SubJoin(a, b) && 0 < n <= |b| && SubMatchLength(b, 0) == Some(n)
    ensures CanonSubFrom(a + b, |a|) == CanonSub(b)
  {
    CanonSubShift(a, b, n);
    SubMatchLengthStart(a, b);
    StepsAgreeMatch(a + b, |a|, b, 0, n);
  }

  lemma CanonSubStartCopy(a: string, b: string)
    requires SubJoin(a, b) && SubMatchLength(b, 0).None?
    ensures CanonSubFrom(a + b, |a|) == CanonSub(b)
  {
    CanonSubShift(a, b, 1);
    SubMatchLengthStart(a, b);
    assert (a + b)[|a|] == b[0];
    StepsAgreeCopy(a + b, |a|, b, 0);
  }

  /** At a SubJoin junction, the scan of `a + b` from b's start is the scan
      of b. */
  lemma CanonSubShiftStart(a: string, b: string)
    requires SubJoin(a, b)
    ensures CanonSubFrom(a + b, |a|) == CanonSub(b)
  {
    if SubMatchLength(b, 0).Some? {
      CanonSubStartMatch(a, b, SubMatchLength(b, 0).value);
    } else {
      CanonSubStartCopy(a, b);
    }
  }

  lemma JoinStepEnd(a: string, b: string)
    requires SubJoin(a, b)
    ensures CanonSubFrom(a + b, |a|) == CanonSubFrom(a, |a|) + CanonSub(b)
  {
    CanonSubShiftStart(a, b);
  }

  lemma JoinStepMatch(a: string, b: string, i: nat, n: nat)
    requires i < |a| && i + n <= |a|
    requires SubMatchLength(a + b, i) == Some(n) && SubMatchLength(a, i) == Some(n)
    requires CanonSubFrom(a + b, i + n) == CanonSubFrom(a, i + n) + CanonSub(b)
    ensures CanonSubFrom(a + b, i) == CanonSubFrom(a, i) + CanonSub(b)
  {
    CanonSubStepMatch(a + b, i, n);
    CanonSubStepMatch(a, i, n);
  }

  lemma JoinStepCopy(a: string, b: string, i: nat)
    requires i < |a|
    requires SubMatchLength(a + b, i).None? && SubMatchLength(a, i).None?
    requires CanonSubFrom(a + b, i + 1) == CanonSubFrom(a, i + 1) + CanonSub(b)
    ensures CanonSubFrom(a + b, i) == CanonSubFrom(a, i) + CanonSub(b)
  {
    CanonSubStepCopy(a + b, i);
    CanonSubStepCopy(a, i);
  }

  /** The Some branch of CanonSubJoinFrom, kept apart to keep each proof
      small. The step facts about `a + b` come after the recursive call, so
      that the call is checked without them. */
  lemma {:induction false} CanonSubJoinMatch(a: string, b: string, i: nat, n: nat)
    requires SubJoin(a, b) && i < |a| && 0 < n && i + n <= |a|
    requires SubMatchLength(a, i) == Some(n)
    ensures CanonSubFrom(a + b, i) == CanonSubFrom(a, i) + CanonSub(b)
    decreases |a| - i, 0
  {
    CanonSubJoinFrom(a, b, i + n);
    SubMatchLengthPrefix(a, b, i);
    JoinStepMatch(a, b, i, n);
  }

  lemma {:induction false} CanonSubJoinCopy(a: string, b: string, i: nat)
    requires SubJoin(a, b) && i < |a| && SubMatchLength(a, i).None?
    ensures CanonSubFrom(a + b, i) == CanonSubFrom(a, i) + CanonSub(b)
    decreases |a| - i, 0
  {
    CanonSubJoinFrom(a, b, i + 1);
    SubMatchLengthPrefix(a, b, i);
    JoinStepCopy(a, b, i);
  }

  lemma {:induction false} CanonSubJoinFrom(a: string, b: string, i: nat)
    requires SubJoin(a, b) && i <= |a|
    ensures CanonSubFrom(a + b, i) == CanonSubFrom(a, i) + CanonSub(b)
    decreases |a| - i, 1
  {
    if i == |a| {
      JoinStepEnd(a, b);
    } else if SubMatchLength(a, i).Some? {
      CanonSubJoinMatch(a, b, i, SubMatchLength(a, i).value);
    } else {
      CanonSubJoinCopy(a, b, i);
    }
  }

  /** Canonicalising "sub category" distributes over a SubJoin junction. */
  lemma CanonSubJoin(a: string, b: string)
    requires SubJoin(a, b)
    ensures CanonSub(a + b) == CanonSub(a) + CanonSub(b)
  {
    CanonSubJoinFrom(a, b, 0);
  }

  // ---------------------------------------------------------------------
  // The keyword split
  // ---------------------------------------------------------------------

  /** Keyword alternatives whose matches cannot straddle a safe junction:
      non-empty lower-case words of letters and inner hyphens. The lemmas
      below hold for any such list, and so for KEYWORDS. */
  predicate Shaped(ws: seq<string>)
  {
    NonEmptyWords(ws) && forall w :: w in ws ==> KeywordShape(w)
  }

  lemma KeywordsShaped()
    ensures Shaped(KEYWORDS)
  {
    KeywordsShape();
  }

  /** The parts of `a + b` when no match straddles the junction: the last
      part of `a` and the first part of `b` run together. */
  function Merge(p: seq<string>, q: seq<string>): (r: seq<string>)
    requires |p| > 0 && |q| > 0
    ensures |r| == |p| + |q| - 1
  {
    p[..|p| - 1] + [p[|p| - 1] + q[0]] + q[1..]
  }

  lemma MergeAppend(x: seq<string>, y: seq<string>, z: seq<string>)
    requires |y| > 0 && |z| > 0
    ensures Merge(x + y, z) == x + Merge(y, z)
  {
    assert (x + y)[..|x + y| - 1] == x + y[..|y| - 1];
  }

  lemma {:induction false} FirstKeywordPrefix(a: string, b: string, q: nat, ws: seq<string>)
    requires Joinable(a, b) && q < |a|
    requires forall w :: w in ws ==> KeywordShape(w)
    ensures FirstKeyword(a + b, q, ws) == FirstKeyword(a, q, ws)
  {
    if ws != [] {
      WordAtPrefix(a, b, q, ws[0]);
      FirstKeywordPrefix(a, b, q, ws[1..]);
    }
  }

  lemma {:induction false} FirstKeywordTail(s: string, i: nat, t: string, j: nat, ws: seq<string>)
    requires SameTail(s, i, t, j)
    requires forall w :: w in ws ==> KeywordShape(w)
    ensures FirstKeyword(s, i, ws) == FirstKeyword(t, j, ws)
  {
    if ws != [] {
      assert ws[0] in ws;
      WordAtTail(s, i, t, j, ws[0]);
      FirstKeywordTail(s, i, t, j, ws[1..]);
    }
  }

  lemma {:induction false} FirstKeywordStart(a: string, b: string, ws: seq<string>)
    requires Joinable(a, b)
    requires forall w :: w in ws ==> KeywordShape(w)
    ensures FirstKeyword(a + b, |a|, ws) == FirstKeyword(b, 0, ws)
  {
    if ws != [] {
      WordAtShift(a, b, 0, ws[0]);
      FirstKeywordStart(a, b, ws[1..]);
    }
  }

  lemma SplitStepNone(s: string, ws: seq<string>, p: nat, q: nat)
    requires NonEmptyWords(ws) && p <= q < |s| && FirstKeyword(s, q, ws).None?
    ensures SplitWith(s, ws, p, q) == SplitWith(s, ws, p, q + 1)
  {
  }

  lemma SplitStepSome(s: string, ws: seq<string>, p: nat, q: nat, w: string)
    requires NonEmptyWords(ws) && p <= q < |s| && FirstKeyword(s, q, ws) == Some(w)
    ensures 0 < |w| && q + |w| <= |s|
    ensures SplitWith(s, ws, p, q) == [s[p..q], s[q..q + |w|]] + SplitWith(s, ws, q + |w|, q + |w|)
  {
  }

  lemma MergeSingle(x: string, y: string, r: seq<string>)
    requires |r| > 0
    ensures Merge([x], Merge([y], r)) == Merge([x + y], r)
  {
    assert x + (y + r[0]) == (x + y) + r[0];
  }

  lemma MergeUnit(r: seq<string>)
    requires |r| > 0
    ensures Merge([""], r) == r
  {
    assert "" + r[0] == r[0];
  }

  lemma MergeEmpty(x: string, w: string, r: seq<string>)
    ensures Merge([x], ["", w] + r) == [x, w] + r
  {
    assert x + "" == x;
  }

  lemma RestartStepNone(b: string, ws: seq<string>, p: nat, q: nat)
    requires NonEmptyWords(ws) && p <= q < |b| && FirstKeyword(b, q, ws).None?
    requires SplitWith(b, ws, p, q + 1) == Merge([b[p..q + 1]], SplitWith(b, ws, q + 1, q + 1))
    requires SplitWith(b, ws, q, q + 1) == Merge([b[q..q + 1]], SplitWith(b, ws, q + 1, q + 1))
    ensures SplitWith(b, ws, p, q) == Merge([b[p..q]], SplitWith(b, ws, q, q))
  {
    SplitStepNone(b, ws, p, q);
    SplitStepNone(b, ws, q, q);
    MergeSingle(b[p..q], b[q..q + 1], SplitWith(b, ws, q + 1, q + 1));
    assert b[p..q] + b[q..q + 1] == b[p..q + 1];
  }

  lemma RestartStepSome(b: string, ws: seq<string>, p: nat, q: nat, w: string)
    requires NonEmptyWords(ws) && p <= q < |b| && FirstKeyword(b, q, ws) == Some(w)
    ensures SplitWith(b, ws, p, q) == Merge([b[p..q]], SplitWith(b, ws, q, q))
  {
    SplitStepSome(b, ws, p, q, w);
    SplitStepSome(b, ws, q, q, w);
    assert b[q..q] == "";
    MergeEmpty(b[p..q], b[q..q + |w|], SplitWith(b, ws, q + |w|, q + |w|));
  }

  /** Splitting from p with the scan at q is the piece up to q run into the
      split that restarts at q. */
  lemma {:induction false} SplitRestart(b: string, ws: seq<string>, p: nat, q: nat)
    requires NonEmptyWords(ws) && p <= q <= |b|
    ensures SplitWith(b, ws, p, q) == Merge([b[p..q]], SplitWith(b, ws, q, q))
    decreases |b| - q
  {
    if q == |b| {
      assert b[p..q] + b[q..] == b[p..];
    } else {
      var r := FirstKeyword(b, q, ws);
      if r.Some? {
        RestartStepSome(b, ws, p, q, r.value);
      } else {
        SplitRestart(b, ws, p, q + 1);
        SplitRestart(b, ws, q, q + 1);
        RestartStepNone(b, ws, p, q);
      }
    }
  }

  lemma TailSlice(s: string, i: nat, t: string, j: nat, d: nat)
    requires SameTail(s, i, t, j) && i + d <= |s|
    ensures s[i..i + d] == t[j..j + d]
  {
    assert s[i..i + d] == s[i..][..d] && t[j..j + d] == t[j..][..d];
  }

  lemma PieceGrows(s: string, p: nat, q: nat)
    requires p <= q < |s|
    ensures s[p..q + 1] == s[p..q] + [s[q]]
  {
  }

  lemma SplitTailNone(s: string, p: nat, q: nat, t: string, p2: nat, q2: nat, ws: seq<string>)
    requires Shaped(ws)
    requires SameTail(s, q, t, q2) && p <= q < |s| && p2 <= q2 && s[p..q] == t[p2..q2]
    requires SplitWith(s, ws, p, q + 1) == SplitWith(t, ws, p2, q2 + 1)
    ensures FirstKeyword(s, q, ws).None? ==> SplitWith(s, ws, p, q) == SplitWith(t, ws, p2, q2)
  {
    if FirstKeyword(s, q, ws).None? {
      FirstKeywordTail(s, q, t, q2, ws);
      SplitStepNone(s, ws, p, q);
      SplitStepNone(t, ws, p2, q2);
    }
  }

  lemma SplitTailSome(s: string, p: nat, q: nat, t: string, p2: nat, q2: nat, ws: seq<string>, w: string)
    requires Shaped(ws)
    requires SameTail(s, q, t, q2) && p <= q < |s| && p2 <= q2 && s[p..q] == t[p2..q2]
    requires 0 < |w| && q + |w| <= |s|
    requires SplitWith(s, ws, q + |w|, q + |w|) == SplitWith(t, ws, q2 + |w|, q2 + |w|)
    ensures FirstKeyword(s, q, ws) == Some(w) ==> SplitWith(s, ws, p, q) == SplitWith(t, ws, p2, q2)
  {
    if FirstKeyword(s, q, ws) == Some(w) {
      FirstKeywordTail(s, q, t, q2, ws);
      SplitStepSome(s, ws, p, q, w);
      SplitStepSome(t, ws, p2, q2, w);
      TailSlice(s, q, t, q2, |w|);
    }
  }

  // The step lemmas below do not assume the keyword found at q: they
  // recurse first and only then look at it, which keeps the recursive
  // call's proof obligations small.

  lemma {:induction false} SplitTailMatch(s: string, p: nat, q: nat, t: string, p2: nat, q2: nat, ws: seq<string>, w: string)
    requires Shaped(ws)
    requires SameTail(s, q, t, q2) && p <= q < |s| && p2 <= q2 && s[p..q] == t[p2..q2]
    requires 0 < |w| && q + |w| <= |s|
    ensures FirstKeyword(s, q, ws) == Some(w) ==> SplitWith(s, ws, p, q) == SplitWith(t, ws, p2, q2)
    decreases |s| - q, 0
  {
    SameTailStep(s, q, t, q2, |w|);
    SplitTail(s, q + |w|, q + |w|, t, q2 + |w|, q2 + |w|, ws);
    SplitTailSome(s, p, q, t, p2, q2, ws, w);
  }

  lemma {:induction false} SplitTailCopy(s: string, p: nat, q: nat, t: string, p2: nat, q2: nat, ws: seq<string>)
    requires Shaped(ws)
    requires SameTail(s, q, t, q2) && p <= q < |s| && p2 <= q2 && s[p..q] == t[p2..q2]
    ensures FirstKeyword(s, q, ws).None? ==> SplitWith(s, ws, p, q) == SplitWith(t, ws, p2, q2)
    decreases |s| - q, 0
  {
    SameTailStep(s, q, t, q2, 1);
    TailChars(s, q, t, q2, 0);
    PieceGrows(s, p, q);
    PieceGrows(t, p2, q2);
    SplitTail(s, p, q + 1, t, p2, q2 + 1, ws);
    SplitTailNone(s, p, q, t, p2, q2, ws);
  }

  /** The split from p with the scan at q depends only on the pending piece
      and the tail from q. */
  lemma {:induction false} SplitTail(s: string, p: nat, q: nat, t: string, p2: nat, q2: nat, ws: seq<string>)
    requires Shaped(ws)
    requires SameTail(s, q, t, q2) && p <= q && p2 <= q2 && s[p..q] == t[p2..q2]
    ensures SplitWith(s, ws, p, q) == SplitWith(t, ws, p2, q2)
    decreases |s| - q, 1
  {
    if q == |s| {
      assert s[p..] == s[p..q] && t[p2..] == t[p2..q2];
    } else {
      var r := FirstKeyword(s, q, ws);
      if r.Some? {
        SplitTailMatch(s, p, q, t, p2, q2, ws, r.value);
      } else {
        SplitTailCopy(s, p, q, t, p2, q2, ws);
      }
    }
  }

  /** Inside b, the split of `a + b` restarted at a position is the split of
      b restarted there. */
  lemma SplitShift(a: string, b: string, ws: seq<string>, j: nat)
    requires Shaped(ws) && 0 < j <= |b|
    ensures SplitWith(a + b, ws, |a| + j, |a| + j) == SplitWith(b, ws, j, j)
  {
    ShiftTail(a, b, j);
    SplitTail(a + b, |a| + j, |a| + j, b, j, j, ws);
  }

  lemma SplitStartSome(a: string, b: string, ws: seq<string>, p: nat, w: string)
    requires Shaped(ws) && p <= |a| && 0 < |w| <= |b|
    requires FirstKeyword(a + b, |a|, ws) == Some(w) && FirstKeyword(b, 0, ws) == Some(w)
    ensures SplitWith(a + b, ws, p, |a|) == Merge([(a + b)[p..|a|]], SplitWith(b, ws, 0, 0))
  {
    SplitShift(a, b, ws, |w|);
    SplitStepSome(a + b, ws, p, |a|, w);
    SplitStepSome(b, ws, 0, 0, w);
    assert (a + b)[|a|..|a| + |w|] == b[0..|w|];
    assert b[0..0] == "";
    MergeEmpty((a + b)[p..|a|], b[0..|w|], SplitWith(b, ws, |w|, |w|));
  }

  lemma SplitStartNone(a: string, b: string, ws: seq<string>, p: nat)
    requires Shaped(ws) && p <= |a| && |b| > 0
    requires FirstKeyword(a + b, |a|, ws).None? && FirstKeyword(b, 0, ws).None?
    ensures SplitWith(a + b, ws, p, |a|) == Merge([(a + b)[p..|a|]], SplitWith(b, ws, 0, 0))
  {
    var s := a + b;
    var r := SplitWith(b, ws, 1, 1);
    SplitShift(a, b, ws, 1);
    SplitRestart(s, ws, p, |a| + 1);
    SplitRestart(b, ws, 0, 1);
    SplitStepNone(s, ws, p, |a|);
    SplitStepNone(b, ws, 0, 0);
    assert s[p..|a| + 1] == s[p..|a|] + b[0..1];
    MergeSingle(s[p..|a|], b[0..1], r);
  }

  /** Splitting `a + b` at the junction: the split of b, with the pending
      piece of `a` run into its first part. */
  lemma SplitStart(a: string, b: string, ws: seq<string>, p: nat)
    requires Shaped(ws) && Joinable(a, b) && p <= |a|
    ensures SplitWith(a + b, ws, p, |a|) == Merge([(a + b)[p..|a|]], SplitWith(b, ws, 0, 0))
  {
    FirstKeywordStart(a, b, ws);
    var r := FirstKeyword(b, 0, ws);
    if r.Some? {
      SplitStartSome(a, b, ws, p, r.value);
    } else {
      SplitStartNone(a, b, ws, p);
    }
  }

  lemma JoinSplitEnd(a: string, b: string, ws: seq<string>, p: nat)
    requires NonEmptyWords(ws) && p <= |a|
    requires SplitWith(a + b, ws, p, |a|) == Merge([(a + b)[p..|a|]], SplitWith(b, ws, 0, 0))
    ensures SplitWith(a + b, ws, p, |a|) == Merge(SplitWith(a, ws, p, |a|), SplitWith(b, ws, 0, 0))
  {
    assert (a + b)[p..|a|] == a[p..];
  }

  lemma JoinSplitNone(a: string, b: string, ws: seq<string>, p: nat, q: nat)
    requires Shaped(ws) && Joinable(a, b) && p <= q < |a|
    requires SplitWith(a + b, ws, p, q + 1) == Merge(SplitWith(a, ws, p, q + 1), SplitWith(b, ws, 0, 0))
    ensures FirstKeyword(a, q, ws).None? ==>
      SplitWith(a + b, ws, p, q) == Merge(SplitWith(a, ws, p, q), SplitWith(b, ws, 0, 0))
  {
    if FirstKeyword(a, q, ws).None? {
      FirstKeywordPrefix(a, b, q, ws);
      SplitStepNone(a + b, ws, p, q);
      SplitStepNone(a, ws, p, q);
    }
  }

  lemma JoinSplitSome(a: string, b: string, ws: seq<string>, p: nat, q: nat, w: string)
    requires Shaped(ws) && Joinable(a, b) && p <= q < |a| && q + |w| <= |a|
    requires SplitWith(a + b, ws, q + |w|, q + |w|)
      == Merge(SplitWith(a, ws, q + |w|, q + |w|), SplitWith(b, ws, 0, 0))
    ensures FirstKeyword(a, q, ws) == Some(w) ==>
      SplitWith(a + b, ws, p, q) == Merge(SplitWith(a, ws, p, q), SplitWith(b, ws, 0, 0))
  {
    if FirstKeyword(a, q, ws) == Some(w) {
      FirstKeywordPrefix(a, b, q, ws);
      var s := a + b;
      SplitStepSome(s, ws, p, q, w);
      SplitStepSome(a, ws, p, q, w);
      assert s[p..q] == a[p..q] && s[q..q + |w|] == a[q..q + |w|];
      MergeAppend([a[p..q], a[q..q + |w|]], SplitWith(a, ws, q + |w|, q + |w|), SplitWith(b, ws, 0, 0));
    }
  }

  lemma {:induction false} SplitJoinMatch(a: string, b: string, ws: seq<string>, p: nat, q: nat, w: string)
    requires Shaped(ws) && Joinable(a, b) && p <= q < |a| && 0 < |w| && q + |w| <= |a|
    ensures FirstKeyword(a, q, ws) == Some(w) ==>
      SplitWith(a + b, ws, p, q) == Merge(SplitWith(a, ws, p, q), SplitWith(b, ws, 0, 0))
    decreases |a| - q, 0
  {
    SplitJoinFrom(a, b, ws, q + |w|, q + |w|);
    JoinSplitSome(a, b, ws, p, q, w);
  }

  lemma {:induction false} SplitJoinCopy(a: string, b: string, ws: seq<string>, p: nat, q: nat)
    requires Shaped(ws) && Joinable(a, b) && p <= q < |a|
    ensures FirstKeyword(a, q, ws).None? ==>
      SplitWith(a + b, ws, p, q) == Merge(SplitWith(a, ws, p, q), SplitWith(b, ws, 0, 0))
    decreases |a| - q, 0
  {
    SplitJoinFrom(a, b, ws, p, q + 1);
    JoinSplitNone(a, b, ws, p, q);
  }

  lemma {:induction false} SplitJoinFrom(a: string, b: string, ws: seq<string>, p: nat, q: nat)
    requires Shaped(ws) && Joinable(a, b) && p <= q <= |a|
    ensures SplitWith(a + b, ws, p, q) == Merge(SplitWith(a, ws, p, q), SplitWith(b, ws, 0, 0))
    decreases |a| - q, 1
  {
    if q == |a| {
      SplitStart(a, b, ws, p);
      JoinSplitEnd(a, b, ws, p);
    } else {
      var r := FirstKeyword(a, q, ws);
      if r.Some? {
        SplitJoinMatch(a, b, ws, p, q, r.value);
      } else {
        SplitJoinCopy(a, b, ws, p, q);
      }
    }
  }

  /** The keyword split of `a + b` across a safe junction. */
  lemma SplitJoin(a: string, b: string)
    requires Joinable(a, b)
    ensures SplitOnKeywords(a + b) == Merge(SplitOnKeywords(a), SplitOnKeywords(b))
  {
    KeywordsShaped();
    SplitJoinFrom(a, b, KEYWORDS, 0, 0);
  }
}
