/** Transcripts written out clause by clause ("category: faith, description
    ESV version"), and the entry the parser reads from each of them: every
    keyword gets the value of its last clause, whichever spelling, colon and
    punctuation the clauses use. */
module TranscriptRender {
  import opened Text
  import opened Wrappers
  import opened VoiceParsing
  import opened TranscriptJoins
  import opened TranscriptPieces

  /** The keyword spellings covered: each keyword in lower case or capitalised,
      and the variants of "sub-category" the normalisation rewrites. */
  const SPELLINGS: seq<string> := [
    "from", "From", "to", "To", "category", "Category", "description", "Description",
    "sub-category", "Sub-Category", "Sub-category", "sub category", "subcategory"]

  /** What may stand between a keyword and its value: a space, punctuation,
      or the spoken word "colon". */
  const LEADS: seq<string> := [" ", ": ", ", ", " colon ", ": colon "]

  /** What may stand between a value and the next keyword. */
  const GAPS: seq<string> := [" ", ", "]

  /** Of the spellings, exactly the variants of "sub-category" begin with an s. */
  predicate IsSubSpelling(spoken: string)
  {
    |spoken| > 0 && Lower(spoken[0]) == 's'
  }

  /** The keyword a spelling stands for. */
  function KeywordOf(spoken: string): string
  {
    if IsSubSpelling(spoken) then "sub-category" else LowerStr(spoken)
  }

  /** A spelling after normalisation: every sub-category variant reads "sub-category". */
  function CanonSpelling(spoken: string): string
  {
    if IsSubSpelling(spoken) then "sub-category" else spoken
  }

  /** A value the normalisation passes leave alone, that no keyword splits,
      and that has word characters at both ends. */
  predicate PlainValue(v: string)
  {
    && |v| > 0 && IsWordChar(v[0]) && IsWordChar(v[|v| - 1])
    && !StartsWithCI(v, 0, "category") && !EndsSub(v)
    && StripColon(v) == v && CanonSub(v) == v && CollapseSpaces(v) == v
    && SplitOnKeywords(v) == [v]
  }

  /** One "keyword value" clause: the gap before it (not written for the first
      clause), the keyword as spoken, what leads to the value, and the value. */
  datatype Clause = Clause(gap: string, spoken: string, lead: string, value: string)

  predicate WellFormed(c: Clause)
  {
    c.gap in GAPS && c.spoken in SPELLINGS && c.lead in LEADS && PlainValue(c.value)
  }

  predicate AllWellFormed(cs: seq<Clause>)
  {
    forall i :: 0 <= i < |cs| ==> WellFormed(cs[i])
  }

  /** A clause as it reads after the first k normalisation passes. */
  function Staged(c: Clause, k: nat): Clause
  {
    if k == 0 then c
    else if k == 1 then c.(lead := StripColon(c.lead))
    else if k == 2 then c.(spoken := CanonSpelling(c.spoken), lead := StripColon(c.lead))
    else c.(spoken := CanonSpelling(c.spoken), lead := CollapseSpaces(StripColon(c.lead)))
  }

  function Tail(c: Clause): string
  {
    c.spoken + (c.lead + c.value)
  }

  function Full(c: Clause): string
  {
    c.gap + Tail(c)
  }

  /** The clauses written one after the other, each as after k passes. */
  function RenderAt(cs: seq<Clause>, k: nat): string
  {
    if |cs| == 0 then ""
    else if |cs| == 1 then Tail(Staged(cs[0], k))
    else RenderAt(cs[..|cs| - 1], k) + Full(Staged(cs[|cs| - 1], k))
  }

  function Render(cs: seq<Clause>): string
  {
    RenderAt(cs, 0)
  }

  /** Each keyword with the value of its last clause. */
  function ClauseMap(cs: seq<Clause>): map<string, string>
  {
    if |cs| == 0 then map[]
    else ClauseMap(cs[..|cs| - 1])[KeywordOf(cs[|cs| - 1].spoken) := cs[|cs| - 1].value]
  }

  /** The parts the keyword split yields for clauses after all passes. */
  function Parts(cs: seq<Clause>): (p: seq<string>)
    requires |cs| > 0
    ensures |p| == 2 * |cs| + 1
  {
    var d := Staged(cs[|cs| - 1], 3);
    if |cs| == 1 then ["", d.spoken, d.lead + d.value]
    else Merge(Parts(cs[..|cs| - 1]), [d.gap, d.spoken, d.lead + d.value])
  }

  /** Punctuation or whitespace that may border a word without a keyword or
      a sub-category match running across. */
  predicate Punct(c: char)
  {
    !IsWordChar(c) && c != '-'
  }

  // ---------------------------------------------------------------------
  // The pieces
  // ---------------------------------------------------------------------

  lemma NoSpaceSingleSpaced(s: string)
    requires forall i :: 0 <= i < |s| ==> IsWordChar(s[i]) || s[i] == '-'
    ensures SingleSpaced(s)
  {
    forall i | 0 <= i < |s| && IsWordChar(s[i])
      ensures !IsSpace(s[i])
    {
      WordCharNotSpace(s[i]);
    }
  }

  lemma {:induction false} FirstKeywordSome(s: string, q: nat, ws: seq<string>, w: string)
    requires q <= |s| && w in ws && WordAt(s, q, w)
    ensures FirstKeyword(s, q, ws).Some?
    decreases |ws|
  {
    if ws[0] != w {
      FirstKeywordSome(s, q, ws[1..], w);
    }
  }

  /** The normalisation passes leave a spoken keyword as its canonical
      spelling, which the later passes leave alone and the split isolates. */
  predicate SpellingPasses(sp: string)
  {
    && StripColon(sp) == sp && CanonSub(sp) == CanonSpelling(sp)
    && var t := CanonSpelling(sp);
      CollapseSpaces(t) == t && SplitOnKeywords(t) == ["", t, ""] && LowerStr(t) == KeywordOf(sp)
  }

  /** A keyword k spelled as the single word sp, in any case. */
  predicate WordSpelled(sp: string, k: string)
  {
    && IsWord(sp) && |sp| == |k| && (forall i :: 0 <= i < |sp| ==> Lower(sp[i]) == k[i])
    && !ColonAt(sp, 0) && SubMatchLength(sp, 0).None? && !IsSubSpelling(sp)
  }

  lemma WordSpelledPasses(sp: string, k: string)
    requires WordSpelled(sp, k) && k in KEYWORDS
    ensures SpellingPasses(sp)
  {
    LowerOf(sp, k);
    WordStripColon(sp);
    WordCanonSub(sp);
    NoSpaceSingleSpaced(sp);
    SingleSpacedCollapse(sp);
    StartsWithCIWhole(sp, k);
    FirstKeywordSome(sp, 0, KEYWORDS, k);
    WordKeywordSplit(sp);
  }

  /** No "co" in the text, in any case: there is no "colon" to remove. */
  predicate NoCo(s: string)
  {
    forall j :: 0 <= j < |s| - 1 ==> !(Lower(s[j]) == 'c' && Lower(s[j + 1]) == 'o')
  }

  lemma {:induction false} NoCoStripColonFrom(s: string, i: nat)
    requires i <= |s| && NoCo(s)
    ensures StripColonFrom(s, i) == s[i..]
    decreases |s| - i
  {
    if i < |s| {
      if ColonAt(s, i) {
        StartsWithCIChars(s, i, "colon");
        assert false;
      }
      NoCoStripColonFrom(s, i + 1);
      assert s[i..] == [s[i]] + s[i + 1..];
    }
  }

  lemma SubKeywordLower()
    ensures LowerStr("sub-category") == "sub-category"
  {
    LowerOf("sub-category", "sub-category");
  }

  /** A text beginning with an s is matched by no keyword but "sub-category". */
  lemma SubKeywordAtOf(s: string)
    requires |s| > 0 && Lower(s[0]) == 's' && WordAt(s, 0, "sub-category")
    ensures KeywordAt(s, 0) == Some("sub-category")
  {
    KeywordAtCases(s, 0);
  }

  lemma SubKeywordAt()
    ensures KeywordAt("sub-category", 0) == Some("sub-category")
  {
    SubKeywordLower();
    WordAtWhole("sub-category", "sub-category");
    SubKeywordAtOf("sub-category");
  }

  lemma SubKeywordSplit()
    ensures SplitOnKeywords("sub-category") == ["", "sub-category", ""]
  {
    SubKeywordAt();
    KeywordSplitWhole("sub-category", "sub-category");
  }

  lemma SubKeywordCollapse()
    ensures CollapseSpaces("sub-category") == "sub-category"
  {
    NoSpaceSingleSpaced("sub-category");
    SingleSpacedCollapse("sub-category");
  }

  /** The canonical "sub-category" passes through the later passes and splits
      off as a keyword. */
  lemma SubKeyword()
    ensures var t := "sub-category";
      CollapseSpaces(t) == t && SplitOnKeywords(t) == ["", t, ""] && LowerStr(t) == t
  {
    SubKeywordCollapse();
    SubKeywordSplit();
    SubKeywordLower();
  }

  /** A spelling of "sub-category" with k characters between "sub" and "category". */
  predicate SubSpelled(sp: string, k: nat)
  {
    |sp| == 11 + k && SubMatchAt(sp, 0, k) && NoCo(sp) && IsSubSpelling(sp)
  }

  lemma SubSpelledPasses(sp: string, k: nat)
    requires SubSpelled(sp, k)
    ensures SpellingPasses(sp)
  {
    SubKeyword();
    NoCoStripColonFrom(sp, 0);
    SubMatchLengthComplete(sp, 0, k);
    WholeSubMatch(sp);
  }

  lemma SpelledFrom(sp: string)
    requires sp == "from"
    ensures WordSpelled(sp, "from")
  {
  }

  lemma SpelledFromCap(sp: string)
    requires sp == "From"
    ensures WordSpelled(sp, "from")
  {
  }

  lemma SpelledTo(sp: string)
    requires sp == "to"
    ensures WordSpelled(sp, "to")
  {
  }

  lemma SpelledToCap(sp: string)
    requires sp == "To"
    ensures WordSpelled(sp, "to")
  {
  }

  lemma SpelledCategory(sp: string)
    requires sp == "category"
    ensures WordSpelled(sp, "category")
  {
  }

  lemma SpelledCategoryCap(sp: string)
    requires sp == "Category"
    ensures WordSpelled(sp, "category")
  {
  }

  lemma SpelledDescription(sp: string)
    requires sp == "description"
    ensures WordSpelled(sp, "description")
  {
  }

  lemma SpelledDescriptionCap(sp: string)
    requires sp == "Description"
    ensures WordSpelled(sp, "description")
  {
  }

  lemma SubMatchOfChars(sp: string, k: nat)
    requires |sp| == 11 + k && IsSubMiddle(sp[3..3 + k])
    requires forall p :: 0 <= p < 3 ==> Lower(sp[p]) == "sub"[p]
    requires forall p :: 3 + k <= p < 11 + k ==> Lower(sp[p]) == "category"[p - (3 + k)]
    ensures SubMatchAt(sp, 0, k)
  {
    StartsWithCIOfChars(sp, 0, "sub");
    StartsWithCIOfChars(sp, 3 + k, "category");
    assert Lower(sp[0]) == 's' && Lower(sp[10 + k]) == 'y';
  }

  lemma SubSpelledOfChars(sp: string, k: nat)
    requires |sp| == 11 + k && IsSubMiddle(sp[3..3 + k]) && NoCo(sp)
    requires forall p :: 0 <= p < 3 ==> Lower(sp[p]) == "sub"[p]
    requires forall p :: 3 + k <= p < 11 + k ==> Lower(sp[p]) == "category"[p - (3 + k)]
    ensures SubSpelled(sp, k)
  {
    SubMatchOfChars(sp, k);
    assert Lower(sp[0]) == "sub"[0];
  }

  lemma SpelledSubHyphenCategory(sp: string)
    requires sp == "sub-category"
    ensures SubSpelled(sp, 1)
  {
    SubSpelledOfChars(sp, 1);
  }

  lemma SpelledSubHyphenCategoryTitle(sp: string)
    requires sp == "Sub-Category"
    ensures SubSpelled(sp, 1)
  {
    SubSpelledOfChars(sp, 1);
  }

  lemma SpelledSubHyphenCategoryCap(sp: string)
    requires sp == "Sub-category"
    ensures SubSpelled(sp, 1)
  {
    SubSpelledOfChars(sp, 1);
  }

  lemma SpelledSubSpaceCategory(sp: string)
    requires sp == "sub category"
    ensures SubSpelled(sp, 1)
  {
    SubSpelledOfChars(sp, 1);
  }

  lemma SpelledSubcategory(sp: string)
    requires sp == "subcategory"
    ensures SubSpelled(sp, 0)
  {
    SubSpelledOfChars(sp, 0);
  }

  /** The normalisation passes on a keyword as spoken. */
  lemma SpellingFacts(sp: string)
    requires sp in SPELLINGS
    ensures SpellingPasses(sp)
  {
    if sp == "from" {
      SpelledFrom(sp);
      WordSpelledPasses(sp, "from");
    } else if sp == "From" {
      SpelledFromCap(sp);
      WordSpelledPasses(sp, "from");
    } else if sp == "to" {
      SpelledTo(sp);
      WordSpelledPasses(sp, "to");
    } else if sp == "To" {
      SpelledToCap(sp);
      WordSpelledPasses(sp, "to");
    } else if sp == "category" {
      SpelledCategory(sp);
      WordSpelledPasses(sp, "category");
    } else if sp == "Category" {
      SpelledCategoryCap(sp);
      WordSpelledPasses(sp, "category");
    } else if sp == "description" {
      SpelledDescription(sp);
      WordSpelledPasses(sp, "description");
    } else if sp == "Description" {
      SpelledDescriptionCap(sp);
      WordSpelledPasses(sp, "description");
    } else if sp == "sub-category" {
      SpelledSubHyphenCategory(sp);
      SubSpelledPasses(sp, 1);
    } else if sp == "Sub-Category" {
      SpelledSubHyphenCategoryTitle(sp);
      SubSpelledPasses(sp, 1);
    } else if sp == "Sub-category" {
      SpelledSubHyphenCategoryCap(sp);
      SubSpelledPasses(sp, 1);
    } else if sp == "sub category" {
      SpelledSubSpaceCategory(sp);
      SubSpelledPasses(sp, 1);
    } else {
      SpelledSubcategory(sp);
      SubSpelledPasses(sp, 0);
    }
  }

  /** A keyword as spoken, and after normalisation, has word characters at
      both ends and does not end in "sub". */
  predicate SpokenShape(sp: string)
  {
    |sp| > 0 && IsWordChar(sp[0]) && IsWordChar(sp[|sp| - 1]) && !EndsSub(sp)
  }

  lemma SpellingEdges(sp: string)
    requires sp in SPELLINGS
    ensures SpokenShape(sp) && SpokenShape(CanonSpelling(sp))
  {
  }

  lemma ColonLead()
    ensures StripColon(" colon ") == "  "
  {
    var s := " colon ";
    assert !ColonAt(s, 0);
    StartsWithCIOfChars(s, 1, "colon");
    assert ColonAt(s, 1);
    assert !ColonAt(s, 6);
    assert StripColonFrom(s, 7) == "";
  }

  lemma PunctColonLead()
    ensures StripColon(": colon ") == ":  "
  {
    var s := ": colon ";
    assert !ColonAt(s, 0);
    assert !ColonAt(s, 1);
    StartsWithCIOfChars(s, 2, "colon");
    assert ColonAt(s, 2);
    assert !ColonAt(s, 7);
    assert StripColonFrom(s, 8) == "";
  }

  /** Punctuation at the front, a space at the back. */
  predicate LeadShape(l: string)
  {
    |l| > 0 && Punct(l[0]) && l[|l| - 1] == ' '
  }

  /** A lead keeps its shape through the passes, loses its "colon" to the
      first, is left alone by the second, and is all separators after the
      third. */
  predicate LeadPasses(l: string)
  {
    var l1 := StripColon(l); var l3 := CollapseSpaces(l1);
    && LeadShape(l) && LeadShape(l1) && NoWordChars(l1) && CanonSub(l1) == l1
    && LeadShape(l3) && AllSeparators(l3) && SplitOnKeywords(l3) == [l3]
  }

  lemma BlankLead(l: string)
    requires LeadShape(l) && NoWordChars(l) && AllSeparators(l) && SingleSpaced(l)
    ensures LeadPasses(l)
  {
    BlankPasses(l);
    SingleSpacedCollapse(l);
  }

  /** A lead whose first pass leaves l1 and whose third leaves l3. */
  lemma LeadPassesOf(l: string, l1: string, l3: string)
    requires StripColon(l) == l1 && CollapseSpaces(l1) == l3
    requires LeadShape(l) && LeadShape(l1) && NoWordChars(l1)
    requires LeadShape(l3) && NoWordChars(l3) && AllSeparators(l3)
    ensures LeadPasses(l)
  {
    BlankPasses(l1);
    BlankPasses(l3);
  }

  lemma ColonLeadPasses(l: string)
    requires l == " colon "
    ensures LeadPasses(l)
  {
    ColonLead();
    assert CollapseSpaces("  ") == " ";
    LeadPassesOf(l, "  ", " ");
  }

  lemma PunctColonCollapse()
    ensures CollapseSpaces(":  ") == ": "
  {
  }

  lemma PunctColonLeadPasses(l: string)
    requires l == ": colon "
    ensures LeadPasses(l)
  {
    PunctColonLead();
    PunctColonCollapse();
    LeadPassesOf(l, ":  ", ": ");
  }

  lemma LeadFacts(l: string)
    requires l in LEADS
    ensures LeadPasses(l)
  {
    if l == " colon " {
      ColonLeadPasses(l);
    } else if l == ": colon " {
      PunctColonLeadPasses(l);
    } else {
      BlankLead(l);
    }
  }

  /** A gap is punctuation or a space, ends in a space, and every pass leaves it alone. */
  predicate GapPasses(g: string)
  {
    && LeadShape(g) && AllSeparators(g)
    && StripColon(g) == g && CanonSub(g) == g && CollapseSpaces(g) == g && SplitOnKeywords(g) == [g]
    && (|g| < 2 || !IsSubMid(g[|g| - 2])) && |g| < 4
  }

  lemma BlankGap(g: string)
    requires LeadShape(g) && NoWordChars(g) && AllSeparators(g) && SingleSpaced(g)
    requires (|g| < 2 || !IsSubMid(g[|g| - 2])) && |g| < 4
    ensures GapPasses(g)
  {
    BlankPasses(g);
    SingleSpacedCollapse(g);
  }

  lemma GapFacts(g: string)
    requires g in GAPS
    ensures GapPasses(g)
  {
    if g == " " {
      BlankGap(g);
    } else {
      BlankGap(g);
    }
  }

  /** What a well-formed clause brings to each pass. */
  predicate ClauseFacts(c: Clause)
  {
    && SpellingPasses(c.spoken) && SpokenShape(c.spoken) && SpokenShape(CanonSpelling(c.spoken))
    && LeadPasses(c.lead) && GapPasses(c.gap) && PlainValue(c.value)
  }

  predicate AllFacts(cs: seq<Clause>)
  {
    forall i :: 0 <= i < |cs| ==> ClauseFacts(cs[i])
  }

  lemma WellFormedFacts(cs: seq<Clause>)
    requires AllWellFormed(cs)
    ensures AllFacts(cs)
  {
    forall i | 0 <= i < |cs|
      ensures ClauseFacts(cs[i])
    {
      SpellingFacts(cs[i].spoken);
      SpellingEdges(cs[i].spoken);
      LeadFacts(cs[i].lead);
      GapFacts(cs[i].gap);
    }
  }

  /** The edges of a clause at every stage. */
  predicate ClauseShape(c: Clause)
  {
    && SpokenShape(c.spoken) && SpokenShape(CanonSpelling(c.spoken))
    && LeadShape(c.lead) && LeadShape(StripColon(c.lead)) && LeadShape(CollapseSpaces(StripColon(c.lead)))
  }

  lemma ClauseShapeOf(c: Clause)
    requires ClauseFacts(c)
    ensures ClauseShape(c)
  {
  }

  /** Every stage of a clause keeps its shape at the edges. */
  lemma StagedFacts(c: Clause, k: nat)
    requires ClauseShape(c) && k <= 3
    ensures var d := Staged(c, k);
      d.gap == c.gap && d.value == c.value && SpokenShape(d.spoken) && LeadShape(d.lead)
  {
  }

  // ---------------------------------------------------------------------
  // One clause through each pass
  // ---------------------------------------------------------------------

  lemma ColonJoins(g: string, sp: string, l: string, v: string)
    requires SpokenShape(sp) && StripColon(sp) == sp && LeadShape(l)
    requires |v| > 0 && IsWordChar(v[0]) && StripColon(v) == v
    requires LeadShape(g) && StripColon(g) == g
    ensures StripColon(sp + (l + v)) == sp + (StripColon(l) + v)
    ensures StripColon(g + (sp + (l + v))) == g + (sp + (StripColon(l) + v))
  {
    StripColonJoin(l, v);
    assert (l + v)[0] == l[0];
    StripColonJoin(sp, l + v);
    assert (sp + (l + v))[0] == sp[0];
    StripColonJoin(g, sp + (l + v));
  }

  lemma CanonJoinLead(l: string, v: string)
    requires |l| > 0 && l[|l| - 1] == ' '
    requires |v| > 0 && IsWordChar(v[0]) && !StartsWithCI(v, 0, "category")
    ensures CanonSub(l + v) == CanonSub(l) + CanonSub(v)
  {
    assert SubJoin(l, v);
    CanonSubJoin(l, v);
  }

  lemma CanonJoinSpoken(sp: string, x: string)
    requires |sp| > 0 && IsWordChar(sp[|sp| - 1]) && !EndsSub(sp) && |x| > 0 && Punct(x[0])
    ensures CanonSub(sp + x) == CanonSub(sp) + CanonSub(x)
  {
    assert SubJoin(sp, x);
    CanonSubJoin(sp, x);
  }

  lemma CanonJoinGap(g: string, x: string)
    requires |g| > 0 && !IsWordChar(g[|g| - 1]) && (|g| < 2 || !IsSubMid(g[|g| - 2])) && |g| < 4
    requires |x| > 0 && IsWordChar(x[0])
    ensures CanonSub(g + x) == CanonSub(g) + CanonSub(x)
  {
    assert SubJoin(g, x);
    CanonSubJoin(g, x);
  }

  lemma CanonJoins(g: string, sp: string, l: string, v: string)
    requires SpokenShape(sp) && LeadShape(l) && CanonSub(l) == l
    requires |v| > 0 && IsWordChar(v[0]) && !StartsWithCI(v, 0, "category") && CanonSub(v) == v
    requires LeadShape(g) && CanonSub(g) == g && (|g| < 2 || !IsSubMid(g[|g| - 2])) && |g| < 4
    ensures CanonSub(sp + (l + v)) == CanonSub(sp) + (l + v)
    ensures CanonSub(g + (sp + (l + v))) == g + (CanonSub(sp) + (l + v))
  {
    CanonJoinLead(l, v);
    assert (l + v)[0] == l[0];
    CanonJoinSpoken(sp, l + v);
    assert (sp + (l + v))[0] == sp[0];
    CanonJoinGap(g, sp + (l + v));
  }

  lemma CollapseJoins(g: string, t: string, l: string, v: string)
    requires SpokenShape(t) && CollapseSpaces(t) == t && |l| > 0
    requires |v| > 0 && IsWordChar(v[0]) && CollapseSpaces(v) == v
    requires |g| > 0 && CollapseSpaces(g) == g
    ensures CollapseSpaces(t + (l + v)) == t + (CollapseSpaces(l) + v)
    ensures CollapseSpaces(g + (t + (l + v))) == g + (t + (CollapseSpaces(l) + v))
  {
    WordCharNotSpace(v[0]);
    CollapseJoin(l, v);
    WordCharNotSpace(t[|t| - 1]);
    CollapseJoin(t, l + v);
    WordCharNotSpace(t[0]);
    assert (t + (l + v))[0] == t[0];
    CollapseJoin(g, t + (l + v));
  }

  lemma SplitJoins(g: string, t: string, l: string, v: string)
    requires SpokenShape(t) && SplitOnKeywords(t) == ["", t, ""] && LeadShape(l) && SplitOnKeywords(l) == [l]
    requires |v| > 0 && IsWordChar(v[0]) && SplitOnKeywords(v) == [v]
    requires LeadShape(g) && SplitOnKeywords(g) == [g]
    ensures SplitOnKeywords(t + (l + v)) == ["", t, l + v]
    ensures SplitOnKeywords(g + (t + (l + v))) == [g, t, l + v]
  {
    SplitJoin(l, v);
    assert Merge([l], [v]) == [l + v];
    assert (l + v)[0] == l[0];
    SplitJoin(t, l + v);
    assert "" + (l + v) == l + v;
    assert Merge(["", t, ""], [l + v]) == ["", t, l + v];
    assert (t + (l + v))[0] == t[0];
    SplitJoin(g, t + (l + v));
    assert g + "" == g;
    assert Merge([g], ["", t, l + v]) == [g, t, l + v];
  }

  lemma ClauseColon(c: Clause)
    requires ClauseFacts(c)
    ensures StripColon(Tail(c)) == Tail(Staged(c, 1))
    ensures StripColon(Full(c)) == Full(Staged(c, 1))
  {
    ColonJoins(c.gap, c.spoken, c.lead, c.value);
  }

  lemma ClauseCanon(c: Clause)
    requires ClauseFacts(c)
    ensures CanonSub(Tail(Staged(c, 1))) == Tail(Staged(c, 2))
    ensures CanonSub(Full(Staged(c, 1))) == Full(Staged(c, 2))
  {
    CanonJoins(c.gap, c.spoken, StripColon(c.lead), c.value);
  }

  lemma ClauseCollapse(c: Clause)
    requires ClauseFacts(c)
    ensures CollapseSpaces(Tail(Staged(c, 2))) == Tail(Staged(c, 3))
    ensures CollapseSpaces(Full(Staged(c, 2))) == Full(Staged(c, 3))
  {
    CollapseJoins(c.gap, CanonSpelling(c.spoken), StripColon(c.lead), c.value);
  }

  lemma ClauseSplit(c: Clause)
    requires ClauseFacts(c)
    ensures var d := Staged(c, 3);
      SplitOnKeywords(Tail(d)) == ["", d.spoken, d.lead + d.value]
    ensures var d := Staged(c, 3);
      SplitOnKeywords(Full(d)) == [d.gap, d.spoken, d.lead + d.value]
  {
    SplitJoins(c.gap, CanonSpelling(c.spoken), CollapseSpaces(StripColon(c.lead)), c.value);
  }

  // ---------------------------------------------------------------------
  // The whole transcript through each pass
  // ---------------------------------------------------------------------

  lemma AllFactsInit(cs: seq<Clause>)
    requires AllFacts(cs) && |cs| > 0
    ensures AllFacts(cs[..|cs| - 1]) && ClauseFacts(cs[|cs| - 1])
  {
    var init := cs[..|cs| - 1];
    forall i | 0 <= i < |init|
      ensures ClauseFacts(init[i])
    {
      assert init[i] == cs[i];
    }
  }

  /** What a rendered transcript looks like at its edges. */
  predicate RenderedShape(r: string, v: string)
  {
    |r| > |v| && r == r[..|r| - |v|] + v && r[|r| - |v| - 1] == ' ' && IsWordChar(r[0])
  }

  lemma ShapeOne(d: Clause)
    requires SpokenShape(d.spoken) && LeadShape(d.lead)
    ensures RenderedShape(Tail(d), d.value)
  {
    var r := Tail(d);
    var v := d.value;
    assert r == (d.spoken + d.lead) + v;
    assert r[|r| - |v| - 1] == d.lead[|d.lead| - 1];
    assert r[..|r| - |v|] == d.spoken + d.lead;
  }

  lemma ShapeStep(a: string, w: string, d: Clause)
    requires RenderedShape(a, w) && LeadShape(d.lead)
    ensures RenderedShape(a + Full(d), d.value)
  {
    var r := a + Full(d);
    var v := d.value;
    var x := a + d.gap + d.spoken + d.lead;
    assert r == x + v;
    assert r[0] == a[0];
    assert r[|r| - |v| - 1] == d.lead[|d.lead| - 1];
    assert r[..|r| - |v|] == x;
  }

  /** A rendered transcript starts with a word character and ends with its
      last value, right after a space. */
  lemma {:induction false} RenderShape(cs: seq<Clause>, k: nat)
    requires AllFacts(cs) && |cs| > 0 && k <= 3
    ensures RenderedShape(RenderAt(cs, k), cs[|cs| - 1].value)
    decreases |cs|
  {
    var c := cs[|cs| - 1];
    AllFactsInit(cs);
    ClauseShapeOf(c);
    StagedFacts(c, k);
    if |cs| == 1 {
      ShapeOne(Staged(c, k));
    } else {
      var init := cs[..|cs| - 1];
      RenderShape(init, k);
      ShapeStep(RenderAt(init, k), init[|init| - 1].value, Staged(c, k));
    }
  }

  /** Neither end of a rendered transcript is where a pass could reach across. */
  lemma RenderEnds(cs: seq<Clause>, k: nat)
    requires AllFacts(cs) && |cs| > 0 && k <= 3
    ensures var r := RenderAt(cs, k);
      |r| > 0 && IsWordChar(r[|r| - 1]) && IsWordChar(r[0]) && !EndsSub(r)
  {
    RenderShape(cs, k);
    AllFactsInit(cs);
    var r := RenderAt(cs, k);
    var v := cs[|cs| - 1].value;
    var p := r[..|r| - |v|];
    assert r[|r| - 1] == v[|v| - 1];
    if EndsSub(r) {
      EndsSubSuffix(p, v);
      assert false;
    }
  }

  lemma {:induction false} StageColon(cs: seq<Clause>)
    requires AllFacts(cs)
    ensures StripColon(RenderAt(cs, 0)) == RenderAt(cs, 1)
    decreases |cs|
  {
    if |cs| == 1 {
      ClauseColon(cs[0]);
    } else if |cs| > 1 {
      var init, c := cs[..|cs| - 1], cs[|cs| - 1];
      AllFactsInit(cs);
      StageColon(init);
      RenderEnds(init, 0);
      ClauseColon(c);
      StripColonJoin(RenderAt(init, 0), Full(c));
    }
  }

  lemma {:induction false} StageCanon(cs: seq<Clause>)
    requires AllFacts(cs)
    ensures CanonSub(RenderAt(cs, 1)) == RenderAt(cs, 2)
    decreases |cs|
  {
    if |cs| == 1 {
      ClauseCanon(cs[0]);
    } else if |cs| > 1 {
      var init, c := cs[..|cs| - 1], cs[|cs| - 1];
      AllFactsInit(cs);
      StageCanon(init);
      RenderEnds(init, 1);
      ClauseCanon(c);
      CanonSubJoin(RenderAt(init, 1), Full(Staged(c, 1)));
    }
  }

  lemma {:induction false} StageCollapse(cs: seq<Clause>)
    requires AllFacts(cs)
    ensures CollapseSpaces(RenderAt(cs, 2)) == RenderAt(cs, 3)
    decreases |cs|
  {
    if |cs| == 1 {
      ClauseCollapse(cs[0]);
    } else if |cs| > 1 {
      var init, c := cs[..|cs| - 1], cs[|cs| - 1];
      AllFactsInit(cs);
      StageCollapse(init);
      RenderEnds(init, 2);
      ClauseCollapse(c);
      var a := RenderAt(init, 2);
      WordCharNotSpace(a[|a| - 1]);
      CollapseJoin(a, Full(Staged(c, 2)));
    }
  }

  lemma {:induction false} StageSplit(cs: seq<Clause>)
    requires AllFacts(cs) && |cs| > 0
    ensures SplitOnKeywords(RenderAt(cs, 3)) == Parts(cs)
    decreases |cs|
  {
    if |cs| == 1 {
      ClauseSplit(cs[0]);
    } else {
      var init, c := cs[..|cs| - 1], cs[|cs| - 1];
      AllFactsInit(cs);
      StageSplit(init);
      RenderEnds(init, 3);
      ClauseSplit(c);
      SplitJoin(RenderAt(init, 3), Full(Staged(c, 3)));
    }
  }

  // ---------------------------------------------------------------------
  // From the parts to the dictionary
  // ---------------------------------------------------------------------

  /** The last two parts are the last clause's keyword, and its lead and value. */
  lemma PartsLast(cs: seq<Clause>)
    requires |cs| > 0
    ensures var p := Parts(cs); var d := Staged(cs[|cs| - 1], 3);
      p[|p| - 2] == d.spoken && p[|p| - 1] == d.lead + d.value
  {
  }

  /** Two part lists that agree up to 2k, and up to separators at 2k, collect
      the same dictionary in k steps. */
  lemma {:induction false} CollectedAgree(p1: seq<string>, p2: seq<string>, k: nat)
    requires 2 * k < |p1| && 2 * k < |p2| && p1[..2 * k] == p2[..2 * k]
    requires StripSeparators(p1[2 * k]) == StripSeparators(p2[2 * k])
    ensures Collected(p1, k) == Collected(p2, k)
  {
    if k > 0 {
      assert p1[2 * k - 2] == p1[..2 * k][2 * k - 2];
      assert p2[2 * k - 2] == p2[..2 * k][2 * k - 2];
      assert p1[2 * k - 1] == p1[..2 * k][2 * k - 1];
      assert p2[2 * k - 1] == p2[..2 * k][2 * k - 1];
      assert p1[..2 * (k - 1)] == p1[..2 * k][..2 * k - 2];
      assert p2[..2 * (k - 1)] == p2[..2 * k][..2 * k - 2];
      CollectedAgree(p1, p2, k - 1);
    }
  }

  lemma ValueEnds(v: string)
    requires PlainValue(v)
    ensures !IsSeparator(v[0]) && !IsSeparator(v[|v| - 1])
  {
    WordCharNotSpace(v[0]);
    WordCharNotSpace(v[|v| - 1]);
  }

  /** The step that reads keyword t and the segment l + v, whose separators
      are all in l. */
  lemma CollectedAt(p: seq<string>, n: nat, t: string, l: string, v: string)
    requires |p| == 2 * n + 3 && p[2 * n + 1] == t && p[2 * n + 2] == l + v
    requires AllSeparators(l) && v != [] && !IsSeparator(v[0]) && !IsSeparator(v[|v| - 1])
    ensures Collected(p, n + 1) == Collected(p, n)[LowerStr(t) := v]
  {
    StripSeparatorsLead(l, v);
    assert PartAt(p, 2 * n + 2) == l + v;
  }

  /** Appending a gap and a clause leaves the steps before it alone. */
  lemma CollectedMerge(p: seq<string>, n: nat, l: string, v: string, g: string, t: string, x: string)
    requires |p| == 2 * n + 1 && p[2 * n] == l + v && v != [] && !IsSeparator(v[|v| - 1])
    requires AllSeparators(g)
    ensures Collected(Merge(p, [g, t, x]), n) == Collected(p, n)
  {
    assert p[2 * n][|p[2 * n]| - 1] == v[|v| - 1];
    var q := Merge(p, [g, t, x]);
    StripSeparatorsGap(p[2 * n], g);
    assert q[..2 * n] == p[..2 * n];
    assert q[2 * n] == p[2 * n] + g;
    CollectedAgree(q, p, n);
  }

  /** What the segment loop needs of a clause after all passes. */
  predicate Collectable(c: Clause)
  {
    && AllSeparators(Staged(c, 3).lead) && AllSeparators(c.gap)
    && c.value != [] && !IsSeparator(c.value[0]) && !IsSeparator(c.value[|c.value| - 1])
  }

  lemma CollectableOf(c: Clause)
    requires ClauseFacts(c)
    ensures Collectable(c) && LowerStr(Staged(c, 3).spoken) == KeywordOf(c.spoken)
  {
    ValueEnds(c.value);
  }

  /** The dictionary collected in the last step. */
  lemma CollectedLast(cs: seq<Clause>)
    requires |cs| > 0
    requires var c := cs[|cs| - 1]; var v := c.value;
      AllSeparators(Staged(c, 3).lead) && v != [] && !IsSeparator(v[0]) && !IsSeparator(v[|v| - 1])
    ensures var n := |cs| - 1; var c := cs[n]; var d := Staged(c, 3);
      Collected(Parts(cs), n + 1) == Collected(Parts(cs), n)[LowerStr(d.spoken) := c.value]
  {
    var n := |cs| - 1;
    var c := cs[n];
    var d := Staged(c, 3);
    PartsLast(cs);
    CollectedAt(Parts(cs), n, d.spoken, d.lead, c.value);
  }

  lemma PartsStep(cs: seq<Clause>)
    requires |cs| > 1
    ensures var d := Staged(cs[|cs| - 1], 3);
      Parts(cs) == Merge(Parts(cs[..|cs| - 1]), [d.gap, d.spoken, d.lead + d.value])
  {
  }

  /** Appending a clause does not change what the earlier clauses collect. */
  lemma CollectedInit(cs: seq<Clause>)
    requires |cs| > 1 && AllSeparators(cs[|cs| - 1].gap)
    requires var v := cs[|cs| - 2].value; v != [] && !IsSeparator(v[|v| - 1])
    ensures Collected(Parts(cs), |cs| - 1) == Collected(Parts(cs[..|cs| - 1]), |cs| - 1)
  {
    var init := cs[..|cs| - 1];
    var e := init[|init| - 1];
    assert e == cs[|cs| - 2];
    var de := Staged(e, 3);
    assert de.value == e.value;
    var p := Parts(init);
    PartsLast(init);
    assert p[2 * |init|] == de.lead + de.value;
    var d := Staged(cs[|cs| - 1], 3);
    assert d.gap == cs[|cs| - 1].gap;
    PartsStep(cs);
    CollectedMerge(p, |init|, de.lead, de.value, d.gap, d.spoken, d.lead + d.value);
  }

  lemma {:induction false} CollectedParts(cs: seq<Clause>)
    requires AllFacts(cs) && |cs| > 0
    ensures Collected(Parts(cs), |cs|) == ClauseMap(cs)
    decreases |cs|
  {
    CollectableOf(cs[|cs| - 1]);
    CollectedLast(cs);
    if |cs| > 1 {
      AllFactsInit(cs);
      CollectableOf(cs[|cs| - 2]);
      CollectedParts(cs[..|cs| - 1]);
      CollectedInit(cs);
    }
  }

  /** The parser reads every keyword's last value from a rendered transcript. */
  lemma ParseRendered(cs: seq<Clause>)
    requires AllWellFormed(cs) && |cs| > 0
    ensures ParseVoice(Render(cs)) == EntryFrom(ClauseMap(cs))
  {
    WellFormedFacts(cs);
    StageColon(cs);
    StageCanon(cs);
    StageCollapse(cs);
    RenderEnds(cs, 3);
    var r := RenderAt(cs, 3);
    WordCharNotSpace(r[0]);
    WordCharNotSpace(r[|r| - 1]);
    TrimUnchanged(r);
    StageSplit(cs);
    CollectedParts(cs);
    var p := Parts(cs);
    assert |p| / 2 == |cs|;
    assert Segments(p) == ClauseMap(cs);
    assert Normalize(Render(cs)) == r;
  }
}
