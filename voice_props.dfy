/** Properties of parseVoiceEntry (src/utils/voiceParsing.ts) over all
    transcripts: which segment a repeated keyword keeps, what a transcript
    without keywords gives, and that the way a keyword is spoken does not
    matter. */
module VoiceProps {
  import opened Text
  import opened Wrappers
  import opened VoiceParsing
  import opened TranscriptJoins
  import opened TranscriptRender
  import opened TimeProps

  // ---------------------------------------------------------------------
  // The last non-empty segment wins
  // ---------------------------------------------------------------------

  /** Step j of the segment loop stores a value under key: the keyword at
      2j-1 reads key in lower case and the stripped part after it is not
      empty. */
  predicate SetsKey(parts: seq<string>, j: nat, key: string)
  {
    1 <= j && 2 * j <= |parts| && LowerStr(parts[2 * j - 1]) == key && StripSeparators(PartAt(parts, 2 * j)) != ""
  }

  /** Step j is the last of the first k steps that stores key. */
  predicate LastSets(parts: seq<string>, k: nat, j: nat, key: string)
  {
    j <= k && SetsKey(parts, j, key) && forall i: nat :: j < i <= k ==> !SetsKey(parts, i, key)
  }

  /** After k steps, key is present exactly when some step stored it. */
  lemma {:induction false} CollectedHas(parts: seq<string>, k: nat, key: string)
    requires 2 * k <= |parts|
    ensures key in Collected(parts, k) <==> exists j: nat :: j <= k && SetsKey(parts, j, key)
  {
    if k > 0 {
      CollectedHas(parts, k - 1, key);
      if SetsKey(parts, k, key) {
        assert k <= k;
      } else if exists j: nat :: j <= k && SetsKey(parts, j, key) {
        var j: nat :| j <= k && SetsKey(parts, j, key);
        assert j <= k - 1;
      }
    }
  }

  /** After k steps, the value under key is the one stored by the last step
      that stored it: a segment that strips to nothing never sets or
      overwrites anything. */
  lemma {:induction false} CollectedLastWins(parts: seq<string>, k: nat, j: nat, key: string)
    requires 2 * k <= |parts| && LastSets(parts, k, j, key)
    ensures key in Collected(parts, k) && Collected(parts, k)[key] == StripSeparators(PartAt(parts, 2 * j))
  {
    if j < k {
      assert !SetsKey(parts, k, key);
      assert LastSets(parts, k - 1, j, key);
      CollectedLastWins(parts, k - 1, j, key);
    }
  }

  /** The same for the whole list of parts. */
  lemma SegmentsLastWins(parts: seq<string>, j: nat, key: string)
    ensures key in Segments(parts) <==> exists i: nat :: SetsKey(parts, i, key)
    ensures SetsKey(parts, j, key) && (forall i: nat :: j < i ==> !SetsKey(parts, i, key))
      ==> key in Segments(parts) && Segments(parts)[key] == StripSeparators(PartAt(parts, 2 * j))
  {
    var k := |parts| / 2;
    CollectedHas(parts, k, key);
    if exists i: nat :: SetsKey(parts, i, key) {
      var i: nat :| SetsKey(parts, i, key);
      assert i <= k;
    }
    if SetsKey(parts, j, key) && (forall i: nat :: j < i ==> !SetsKey(parts, i, key)) {
      assert LastSets(parts, k, j, key);
      CollectedLastWins(parts, k, j, key);
    }
  }

  // ---------------------------------------------------------------------
  // No keyword, no field
  // ---------------------------------------------------------------------

  lemma {:induction false} SplitWithNone(s: string, ws: seq<string>, p: nat, q: nat)
    requires NonEmptyWords(ws) && p <= q <= |s|
    requires forall i :: q <= i < |s| ==> FirstKeyword(s, i, ws).None?
    ensures SplitWith(s, ws, p, q) == [s[p..]]
    decreases |s| - q
  {
    if q < |s| {
      SplitStepNone(s, ws, p, q);
      SplitWithNone(s, ws, p, q + 1);
    }
  }

  /** A transcript whose normal form has no keyword anywhere gives the
      entry with every field absent; the empty transcript is one. */
  lemma NoKeywordsEmpty(transcript: string)
    requires forall i :: 0 <= i < |Normalize(transcript)| ==> KeywordAt(Normalize(transcript), i).None?
    ensures ParseVoice(transcript) == EMPTY_ENTRY
  {
    var text := Normalize(transcript);
    KeywordsShaped();
    forall i | 0 <= i < |text|
      ensures FirstKeyword(text, i, KEYWORDS).None?
    {
      assert KeywordAt(text, i).None?;
    }
    SplitWithNone(text, KEYWORDS, 0, 0);
    assert SplitOnKeywords(text) == [text];
  }

  // ---------------------------------------------------------------------
  // How a keyword is spoken does not matter
  // ---------------------------------------------------------------------

  lemma {:induction false} ClauseMapSame(cs: seq<Clause>, ds: seq<Clause>)
    requires |cs| == |ds|
    requires forall i :: 0 <= i < |cs| ==> KeywordOf(cs[i].spoken) == KeywordOf(ds[i].spoken) && cs[i].value == ds[i].value
    ensures ClauseMap(cs) == ClauseMap(ds)
    decreases |cs|
  {
    if |cs| > 0 {
      ClauseMapSame(cs[..|cs| - 1], ds[..|ds| - 1]);
    }
  }

  /** Two transcripts whose clauses name the same keywords with the same
      values, in the same order, give the same entry, whatever spelling of
      each keyword they use ("sub category", "Sub-Category", ...), with or
      without a colon or the spoken word "colon", and with or without
      commas between clauses. */
  lemma SpellingInvariance(cs: seq<Clause>, ds: seq<Clause>)
    requires AllWellFormed(cs) && AllWellFormed(ds) && |cs| == |ds| > 0
    requires forall i :: 0 <= i < |cs| ==> KeywordOf(cs[i].spoken) == KeywordOf(ds[i].spoken) && cs[i].value == ds[i].value
    ensures ParseVoice(Render(cs)) == ParseVoice(Render(ds))
  {
    ParseRendered(cs);
    ParseRendered(ds);
    ClauseMapSame(cs, ds);
  }

  // ---------------------------------------------------------------------
  // noon and midnight in any case
  // ---------------------------------------------------------------------

  lemma {:induction false} LowerNotSpace(s: string, w: string)
    requires LowerStr(s) == w && forall i :: 0 <= i < |w| ==> 'a' <= w[i] <= 'z'
    ensures forall i :: 0 <= i < |s| ==> !IsSpace(s[i]) && s[i] != '.'
  {
    forall i | 0 <= i < |s|
      ensures !IsSpace(s[i]) && s[i] != '.'
    {
      assert Lower(s[i]) == w[i];
      LowerLetter(s[i]);
    }
  }

  lemma LowerLetter(c: char)
    requires 'a' <= Lower(c) <= 'z'
    ensures !IsSpace(c) && c != '.'
  {
    if !IsUpper(c) {
      assert Lower(c) == c;
    }
  }

  /** "noon" written in any mix of cases is 12:00. */
  lemma NoonAnyCase(raw: string)
    requires LowerStr(raw) == "noon"
    ensures NormalizeTime(raw) == Some("12:00")
  {
    LowerNotSpace(raw, "noon");
    TrimUnchanged(raw);
    RemoveDotsLower(raw, "noon");
  }

  /** "midnight" written in any mix of cases is 00:00. */
  lemma MidnightAnyCase(raw: string)
    requires LowerStr(raw) == "midnight"
    ensures NormalizeTime(raw) == Some("00:00")
  {
    LowerNotSpace(raw, "midnight");
    TrimUnchanged(raw);
    RemoveDotsLower(raw, "midnight");
  }

  lemma RemoveDotsLower(raw: string, w: string)
    requires LowerStr(raw) == w && forall i :: 0 <= i < |w| ==> 'a' <= w[i] <= 'z'
    ensures CollapseSpaces(RemoveDots(LowerStr(raw))) == w
  {
    RemoveDotsNone(w);
    NoSpaceSingleSpaced(w);
    SingleSpacedCollapse(w);
  }
}
