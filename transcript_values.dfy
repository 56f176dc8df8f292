/** Values a clause can carry: single words the passes leave alone, and
    values built from them with a space or a colon in between ("ESV
    version", "9:30 am"). */
module TranscriptValues {
  import opened Text
  import opened VoiceParsing
  import opened TranscriptJoins
  import opened TranscriptPieces
  import opened TranscriptRender

  /** A word that is not "colon", not a keyword, not a sub-category spelling,
      and neither starts with "category" nor ends with "sub". */
  predicate PlainWord(w: string)
  {
    && IsWord(w) && !ColonAt(w, 0) && SubMatchLength(w, 0).None? && KeywordAt(w, 0).None?
    && !StartsWithCI(w, 0, "category") && !EndsSub(w)
  }

  lemma WordSingleSpaced(w: string)
    requires IsWord(w)
    ensures SingleSpaced(w)
  {
    forall i | 0 <= i < |w|
      ensures !IsSpace(w[i])
    {
      WordCharNotSpace(w[i]);
    }
  }

  /** Such a word is a plain value. */
  lemma PlainWordValue(w: string)
    requires PlainWord(w)
    ensures PlainValue(w)
  {
    WordStripColon(w);
    WordCanonSub(w);
    WordSplit(w);
    WordSingleSpaced(w);
    SingleSpacedCollapse(w);
  }

  /** The characters that may join two plain values. */
  predicate Joiner(c: char)
  {
    c == ' ' || c == ':'
  }

  lemma JoinerPasses(c: char)
    requires Joiner(c)
    ensures StripColon([c]) == [c] && CanonSub([c]) == [c] && SplitOnKeywords([c]) == [[c]]
    ensures CollapseSpaces([c]) == [c]
  {
    BlankPasses([c]);
    SingleSpacedCollapse([c]);
  }

  lemma JoinColon(u: string, c: char, v: string)
    requires PlainValue(u) && PlainValue(v) && Joiner(c)
    ensures StripColon(u + ([c] + v)) == u + ([c] + v)
  {
    JoinerPasses(c);
    StripColonJoin([c], v);
    StripColonJoin(u, [c] + v);
  }

  lemma JoinCanon(u: string, c: char, v: string)
    requires PlainValue(u) && PlainValue(v) && Joiner(c)
    ensures CanonSub(u + ([c] + v)) == u + ([c] + v)
  {
    JoinerPasses(c);
    assert SubJoin([c], v);
    CanonSubJoin([c], v);
    assert SubJoin(u, [c] + v);
    CanonSubJoin(u, [c] + v);
  }

  lemma JoinCollapse(u: string, c: char, v: string)
    requires PlainValue(u) && PlainValue(v) && Joiner(c)
    ensures CollapseSpaces(u + ([c] + v)) == u + ([c] + v)
  {
    JoinerPasses(c);
    WordCharNotSpace(v[0]);
    CollapseJoin([c], v);
    WordCharNotSpace(u[|u| - 1]);
    CollapseJoin(u, [c] + v);
  }

  lemma JoinSplit(u: string, c: char, v: string)
    requires PlainValue(u) && PlainValue(v) && Joiner(c)
    ensures SplitOnKeywords(u + ([c] + v)) == [u + ([c] + v)]
  {
    JoinerPasses(c);
    SplitJoin([c], v);
    assert Merge([[c]], [v]) == [[c] + v];
    SplitJoin(u, [c] + v);
    assert Merge([u], [[c] + v]) == [u + ([c] + v)];
  }

  lemma JoinEnds(u: string, c: char, v: string)
    requires PlainValue(u) && PlainValue(v) && Joiner(c)
    ensures !StartsWithCI(u + ([c] + v), 0, "category") && !EndsSub(u + ([c] + v))
  {
    var s := u + ([c] + v);
    if StartsWithCI(s, 0, "category") {
      StartsCategoryPrefix(u, [c] + v);
      assert false;
    }
    assert s == (u + [c]) + v;
    if EndsSub(s) {
      EndsSubSuffix(u + [c], v);
      assert false;
    }
  }

  /** Two plain values joined by a space or a colon make a plain value. */
  lemma PlainJoin(u: string, c: char, v: string)
    requires PlainValue(u) && PlainValue(v) && Joiner(c)
    ensures PlainValue(u + ([c] + v))
  {
    JoinColon(u, c, v);
    JoinCanon(u, c, v);
    JoinCollapse(u, c, v);
    JoinSplit(u, c, v);
    JoinEnds(u, c, v);
  }
}
