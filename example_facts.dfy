/** Building blocks for the parser's examples: clause lists of two to five
    clauses written out, the entry each list of keywords gives, and the
    individual values, times, categories and capitalisations the examples
    use. Every fact about a concrete string is stated about a parameter
    equal to it, so that each is established once, in a lemma of its own. */
module ExampleFacts {
  import opened Text
  import opened Wrappers
  import opened Storage
  import opened VoiceParsing
  import opened TranscriptPieces
  import opened TranscriptRender
  import opened TranscriptValues
  import opened TimeProps

  // ---------------------------------------------------------------------
  // Clause lists written out
  // ---------------------------------------------------------------------

  lemma RenderSnoc(cs: seq<Clause>, c: Clause)
    requires |cs| > 0
    ensures Render(cs + [c]) == Render(cs) + Full(c)
    ensures ClauseMap(cs + [c]) == ClauseMap(cs)[KeywordOf(c.spoken) := c.value]
  {
    assert (cs + [c])[..|cs|] == cs;
  }

  lemma WellFormedSnoc(cs: seq<Clause>, c: Clause)
    requires AllWellFormed(cs) && WellFormed(c)
    ensures AllWellFormed(cs + [c])
  {
    var ds := cs + [c];
    forall i | 0 <= i < |ds|
      ensures WellFormed(ds[i])
    {
      if i < |cs| {
        assert ds[i] == cs[i];
      }
    }
  }

  lemma Render2(c0: Clause, c1: Clause)
    ensures Render([c0, c1]) == Tail(c0) + Full(c1)
    ensures ClauseMap([c0, c1]) == map[KeywordOf(c0.spoken) := c0.value][KeywordOf(c1.spoken) := c1.value]
    ensures WellFormed(c0) && WellFormed(c1) ==> AllWellFormed([c0, c1])
  {
    RenderSnoc([c0], c1);
    assert [c0] + [c1] == [c0, c1];
  }

  lemma Render3(c0: Clause, c1: Clause, c2: Clause)
    ensures Render([c0, c1, c2]) == Tail(c0) + Full(c1) + Full(c2)
    ensures ClauseMap([c0, c1, c2])
      == map[KeywordOf(c0.spoken) := c0.value][KeywordOf(c1.spoken) := c1.value][KeywordOf(c2.spoken) := c2.value]
    ensures WellFormed(c0) && WellFormed(c1) && WellFormed(c2) ==> AllWellFormed([c0, c1, c2])
  {
    Render2(c0, c1);
    RenderSnoc([c0, c1], c2);
    assert [c0, c1] + [c2] == [c0, c1, c2];
  }

  lemma Render4(c0: Clause, c1: Clause, c2: Clause, c3: Clause)
    ensures Render([c0, c1, c2, c3]) == Tail(c0) + Full(c1) + Full(c2) + Full(c3)
    ensures ClauseMap([c0, c1, c2, c3])
      == map[KeywordOf(c0.spoken) := c0.value][KeywordOf(c1.spoken) := c1.value][KeywordOf(c2.spoken) := c2.value]
            [KeywordOf(c3.spoken) := c3.value]
    ensures WellFormed(c0) && WellFormed(c1) && WellFormed(c2) && WellFormed(c3) ==> AllWellFormed([c0, c1, c2, c3])
  {
    Render3(c0, c1, c2);
    RenderSnoc([c0, c1, c2], c3);
    assert [c0, c1, c2] + [c3] == [c0, c1, c2, c3];
  }

  lemma Render5(c0: Clause, c1: Clause, c2: Clause, c3: Clause, c4: Clause)
    ensures Render([c0, c1, c2, c3, c4]) == Tail(c0) + Full(c1) + Full(c2) + Full(c3) + Full(c4)
    ensures ClauseMap([c0, c1, c2, c3, c4])
      == map[KeywordOf(c0.spoken) := c0.value][KeywordOf(c1.spoken) := c1.value][KeywordOf(c2.spoken) := c2.value]
            [KeywordOf(c3.spoken) := c3.value][KeywordOf(c4.spoken) := c4.value]
    ensures WellFormed(c0) && WellFormed(c1) && WellFormed(c2) && WellFormed(c3) && WellFormed(c4)
      ==> AllWellFormed([c0, c1, c2, c3, c4])
  {
    Render4(c0, c1, c2, c3);
    RenderSnoc([c0, c1, c2, c3], c4);
    assert [c0, c1, c2, c3] + [c4] == [c0, c1, c2, c3, c4];
  }

  lemma WellFormed2(c0: Clause, c1: Clause)
    requires WellFormed(c0) && WellFormed(c1)
    ensures AllWellFormed([c0, c1])
  {
    assert AllWellFormed([c0]);
    WellFormedSnoc([c0], c1);
    assert [c0] + [c1] == [c0, c1];
  }

  lemma WellFormed3(c0: Clause, c1: Clause, c2: Clause)
    requires WellFormed(c0) && WellFormed(c1) && WellFormed(c2)
    ensures AllWellFormed([c0, c1, c2])
  {
    WellFormed2(c0, c1);
    WellFormedSnoc([c0, c1], c2);
    assert [c0, c1] + [c2] == [c0, c1, c2];
  }

  lemma WellFormed4(c0: Clause, c1: Clause, c2: Clause, c3: Clause)
    requires WellFormed(c0) && WellFormed(c1) && WellFormed(c2) && WellFormed(c3)
    ensures AllWellFormed([c0, c1, c2, c3])
  {
    WellFormed3(c0, c1, c2);
    WellFormedSnoc([c0, c1, c2], c3);
    assert [c0, c1, c2] + [c3] == [c0, c1, c2, c3];
  }

  lemma WellFormed5(c0: Clause, c1: Clause, c2: Clause, c3: Clause, c4: Clause)
    requires WellFormed(c0) && WellFormed(c1) && WellFormed(c2) && WellFormed(c3) && WellFormed(c4)
    ensures AllWellFormed([c0, c1, c2, c3, c4])
  {
    WellFormed4(c0, c1, c2, c3);
    WellFormedSnoc([c0, c1, c2, c3], c4);
    assert [c0, c1, c2, c3] + [c4] == [c0, c1, c2, c3, c4];
  }

  // ---------------------------------------------------------------------
  // The entry each dictionary gives
  // ---------------------------------------------------------------------

  lemma EntryOfFromTo(a: string, b: string)
    requires a != "" && b != ""
    ensures EntryFrom(map["from" := a]["to" := b]) == ParsedEntry(NormalizeTime(a), NormalizeTime(b), None, None, None)
  {
  }

  lemma EntryOfFromToCategory(a: string, b: string, c: string)
    requires a != "" && b != "" && c != ""
    ensures EntryFrom(map["from" := a]["to" := b]["category" := c])
      == ParsedEntry(NormalizeTime(a), NormalizeTime(b), CategoryNamed(LowerStr(c)), None, None)
  {
  }

  lemma EntryOfFromToSub(a: string, b: string, c: string, d: string)
    requires a != "" && b != "" && c != "" && d != ""
    ensures EntryFrom(map["from" := a]["to" := b]["category" := c]["sub-category" := d])
      == ParsedEntry(NormalizeTime(a), NormalizeTime(b), CategoryNamed(LowerStr(c)), Some(Capitalize(d)), None)
  {
  }

  lemma EntryOfAll(a: string, b: string, c: string, d: string, e: string)
    requires a != "" && b != "" && c != "" && d != "" && e != ""
    ensures EntryFrom(map["from" := a]["to" := b]["category" := c]["sub-category" := d]["description" := e])
      == ParsedEntry(NormalizeTime(a), NormalizeTime(b), CategoryNamed(LowerStr(c)), Some(Capitalize(d)), Some(Capitalize(e)))
  {
  }

  lemma EntryOfLabels(c: string, d: string, e: string)
    requires c != "" && d != "" && e != ""
    ensures EntryFrom(map["category" := c]["sub-category" := d]["description" := e])
      == ParsedEntry(None, None, CategoryNamed(LowerStr(c)), Some(Capitalize(d)), Some(Capitalize(e)))
  {
  }

  // ---------------------------------------------------------------------
  // The text of a clause list
  // ---------------------------------------------------------------------

  lemma Glue(x: string, y: string, v: string)
    ensures x + (y + v) == x + y + v
  {
  }

  /** The first clause reads its words p, then its value. */
  lemma TailText(c: Clause, p: string)
    requires p == c.spoken + c.lead
    ensures Tail(c) == p + c.value
  {
    Glue(c.spoken, c.lead, c.value);
  }

  /** A later clause, after text x, reads its words p, then its value. */
  lemma FullText(x: string, c: Clause, p: string)
    requires p == c.gap + c.spoken + c.lead
    ensures x + Full(c) == x + p + c.value
  {
    Glue(c.spoken, c.lead, c.value);
    Glue(c.gap, c.spoken + c.lead, c.value);
    Glue(c.gap, c.spoken, c.lead);
    Glue(x, p, c.value);
  }

  // ---------------------------------------------------------------------
  // The entry each list of keywords gives
  // ---------------------------------------------------------------------

  /** "from A to B". */
  lemma FromToEntry(c0: Clause, c1: Clause, p0: string, p1: string)
    requires WellFormed(c0) && WellFormed(c1)
    requires KeywordOf(c0.spoken) == "from" && KeywordOf(c1.spoken) == "to"
    requires p0 == c0.spoken + c0.lead && p1 == c1.gap + c1.spoken + c1.lead
    ensures ParseVoice(p0 + c0.value + p1 + c1.value)
      == ParsedEntry(NormalizeTime(c0.value), NormalizeTime(c1.value), None, None, None)
  {
    WellFormed2(c0, c1);
    Render2(c0, c1);
    ParseRendered([c0, c1]);
    EntryOfFromTo(c0.value, c1.value);
    TailText(c0, p0);
    FullText(Tail(c0), c1, p1);
  }

  /** "from A to B, category C". */
  lemma FromToCategoryEntry(c0: Clause, c1: Clause, c2: Clause, p0: string, p1: string, p2: string)
    requires WellFormed(c0) && WellFormed(c1) && WellFormed(c2)
    requires KeywordOf(c0.spoken) == "from" && KeywordOf(c1.spoken) == "to" && KeywordOf(c2.spoken) == "category"
    requires p0 == c0.spoken + c0.lead && p1 == c1.gap + c1.spoken + c1.lead && p2 == c2.gap + c2.spoken + c2.lead
    ensures ParseVoice(p0 + c0.value + p1 + c1.value + p2 + c2.value)
      == ParsedEntry(NormalizeTime(c0.value), NormalizeTime(c1.value), CategoryNamed(LowerStr(c2.value)), None, None)
  {
    WellFormed3(c0, c1, c2);
    Render3(c0, c1, c2);
    ParseRendered([c0, c1, c2]);
    EntryOfFromToCategory(c0.value, c1.value, c2.value);
    TailText(c0, p0);
    FullText(Tail(c0), c1, p1);
    FullText(p0 + c0.value + p1 + c1.value, c2, p2);
  }

  /** "from A to B, category C, sub-category D". */
  lemma FromToSubEntry(c0: Clause, c1: Clause, c2: Clause, c3: Clause, p0: string, p1: string, p2: string, p3: string)
    requires WellFormed(c0) && WellFormed(c1) && WellFormed(c2) && WellFormed(c3)
    requires KeywordOf(c0.spoken) == "from" && KeywordOf(c1.spoken) == "to" && KeywordOf(c2.spoken) == "category"
    requires KeywordOf(c3.spoken) == "sub-category"
    requires p0 == c0.spoken + c0.lead && p1 == c1.gap + c1.spoken + c1.lead && p2 == c2.gap + c2.spoken + c2.lead
    requires p3 == c3.gap + c3.spoken + c3.lead
    ensures ParseVoice(p0 + c0.value + p1 + c1.value + p2 + c2.value + p3 + c3.value)
      == ParsedEntry(NormalizeTime(c0.value), NormalizeTime(c1.value), CategoryNamed(LowerStr(c2.value)),
                     Some(Capitalize(c3.value)), None)
  {
    WellFormed4(c0, c1, c2, c3);
    Render4(c0, c1, c2, c3);
    ParseRendered([c0, c1, c2, c3]);
    EntryOfFromToSub(c0.value, c1.value, c2.value, c3.value);
    TailText(c0, p0);
    FullText(Tail(c0), c1, p1);
    FullText(p0 + c0.value + p1 + c1.value, c2, p2);
    FullText(p0 + c0.value + p1 + c1.value + p2 + c2.value, c3, p3);
  }

  /** All five keywords, in the order the examples speak them. */
  lemma AllFieldsEntry(c0: Clause, c1: Clause, c2: Clause, c3: Clause, c4: Clause,
                       p0: string, p1: string, p2: string, p3: string, p4: string)
    requires WellFormed(c0) && WellFormed(c1) && WellFormed(c2) && WellFormed(c3) && WellFormed(c4)
    requires KeywordOf(c0.spoken) == "from" && KeywordOf(c1.spoken) == "to" && KeywordOf(c2.spoken) == "category"
    requires KeywordOf(c3.spoken) == "sub-category" && KeywordOf(c4.spoken) == "description"
    requires p0 == c0.spoken + c0.lead && p1 == c1.gap + c1.spoken + c1.lead && p2 == c2.gap + c2.spoken + c2.lead
    requires p3 == c3.gap + c3.spoken + c3.lead && p4 == c4.gap + c4.spoken + c4.lead
    ensures ParseVoice(p0 + c0.value + p1 + c1.value + p2 + c2.value + p3 + c3.value + p4 + c4.value)
      == ParsedEntry(NormalizeTime(c0.value), NormalizeTime(c1.value), CategoryNamed(LowerStr(c2.value)),
                     Some(Capitalize(c3.value)), Some(Capitalize(c4.value)))
  {
    WellFormed5(c0, c1, c2, c3, c4);
    Render5(c0, c1, c2, c3, c4);
    ParseRendered([c0, c1, c2, c3, c4]);
    EntryOfAll(c0.value, c1.value, c2.value, c3.value, c4.value);
    TailText(c0, p0);
    FullText(Tail(c0), c1, p1);
    FullText(p0 + c0.value + p1 + c1.value, c2, p2);
    FullText(p0 + c0.value + p1 + c1.value + p2 + c2.value, c3, p3);
    FullText(p0 + c0.value + p1 + c1.value + p2 + c2.value + p3 + c3.value, c4, p4);
  }

  /** "category C, sub-category D, description E", with no times. */
  lemma LabelsEntry(c0: Clause, c1: Clause, c2: Clause, p0: string, p1: string, p2: string)
    requires WellFormed(c0) && WellFormed(c1) && WellFormed(c2)
    requires KeywordOf(c0.spoken) == "category" && KeywordOf(c1.spoken) == "sub-category"
    requires KeywordOf(c2.spoken) == "description"
    requires p0 == c0.spoken + c0.lead && p1 == c1.gap + c1.spoken + c1.lead && p2 == c2.gap + c2.spoken + c2.lead
    ensures ParseVoice(p0 + c0.value + p1 + c1.value + p2 + c2.value)
      == ParsedEntry(None, None, CategoryNamed(LowerStr(c0.value)), Some(Capitalize(c1.value)), Some(Capitalize(c2.value)))
  {
    WellFormed3(c0, c1, c2);
    Render3(c0, c1, c2);
    ParseRendered([c0, c1, c2]);
    EntryOfLabels(c0.value, c1.value, c2.value);
    TailText(c0, p0);
    FullText(Tail(c0), c1, p1);
    FullText(p0 + c0.value + p1 + c1.value, c2, p2);
  }

  // ---------------------------------------------------------------------
  // Keywords as spoken
  // ---------------------------------------------------------------------

  lemma KeywordOfWord(sp: string, k: string)
    requires WordSpelled(sp, k)
    ensures KeywordOf(sp) == k
  {
    LowerOf(sp, k);
  }

  lemma KeyFrom() returns (sp: string)
    ensures sp == "from" && KeywordOf(sp) == "from" && sp in SPELLINGS
  {
    sp := "from";
    SpelledFrom(sp);
    KeywordOfWord(sp, "from");
  }

  lemma KeyTo() returns (sp: string)
    ensures sp == "to" && KeywordOf(sp) == "to" && sp in SPELLINGS
  {
    sp := "to";
    SpelledTo(sp);
    KeywordOfWord(sp, "to");
  }

  lemma KeyCategory() returns (sp: string)
    ensures sp == "category" && KeywordOf(sp) == "category" && sp in SPELLINGS
  {
    sp := "category";
    SpelledCategory(sp);
    KeywordOfWord(sp, "category");
  }

  lemma KeyCategoryCap() returns (sp: string)
    ensures sp == "Category" && KeywordOf(sp) == "category" && sp in SPELLINGS
  {
    sp := "Category";
    SpelledCategoryCap(sp);
    KeywordOfWord(sp, "category");
  }

  lemma KeyDescription() returns (sp: string)
    ensures sp == "description" && KeywordOf(sp) == "description" && sp in SPELLINGS
  {
    sp := "description";
    SpelledDescription(sp);
    KeywordOfWord(sp, "description");
  }

  lemma KeyDescriptionCap() returns (sp: string)
    ensures sp == "Description" && KeywordOf(sp) == "description" && sp in SPELLINGS
  {
    sp := "Description";
    SpelledDescriptionCap(sp);
    KeywordOfWord(sp, "description");
  }

  lemma KeySubHyphen() returns (sp: string)
    ensures sp == "sub-category" && KeywordOf(sp) == "sub-category" && sp in SPELLINGS
  {
    sp := "sub-category";
  }

  lemma KeySubTitle() returns (sp: string)
    ensures sp == "Sub-Category" && KeywordOf(sp) == "sub-category" && sp in SPELLINGS
  {
    sp := "Sub-Category";
  }

  lemma KeySubSpace() returns (sp: string)
    ensures sp == "sub category" && KeywordOf(sp) == "sub-category" && sp in SPELLINGS
  {
    sp := "sub category";
  }

  lemma KeySubcategory() returns (sp: string)
    ensures sp == "subcategory" && KeywordOf(sp) == "sub-category" && sp in SPELLINGS
  {
    sp := "subcategory";
  }

  // ---------------------------------------------------------------------
  // Values
  // ---------------------------------------------------------------------

  /** Two plain values with a space between them make a plain value. */
  lemma SpaceValue(u: string, w: string)
    requires PlainValue(u) && PlainValue(w)
    ensures PlainValue(u + " " + w)
  {
    PlainJoin(u, ' ', w);
    assert u + ([' '] + w) == u + " " + w;
  }

  /** Two plain values with a colon between them make a plain value. */
  lemma ColonValue(u: string, w: string)
    requires PlainValue(u) && PlainValue(w)
    ensures PlainValue(u + ":" + w)
  {
    PlainJoin(u, ':', w);
    assert u + ([':'] + w) == u + ":" + w;
  }

  lemma Plain1(v: string) requires v == "1" ensures PlainValue(v) { PlainWordValue("1"); }
  lemma Plain3(v: string) requires v == "3" ensures PlainValue(v) { PlainWordValue("3"); }
  lemma Plain7(v: string) requires v == "7" ensures PlainValue(v) { PlainWordValue("7"); }
  lemma Plain8(v: string) requires v == "8" ensures PlainValue(v) { PlainWordValue("8"); }
  lemma Plain9(v: string) requires v == "9" ensures PlainValue(v) { PlainWordValue("9"); }
  lemma Plain10(v: string) requires v == "10" ensures PlainValue(v) { PlainWordValue("10"); }
  lemma Plain11(v: string) requires v == "11" ensures PlainValue(v) { PlainWordValue("11"); }
  lemma Plain30(v: string) requires v == "30" ensures PlainValue(v) { PlainWordValue("30"); }
  lemma Plain45(v: string) requires v == "45" ensures PlainValue(v) { PlainWordValue("45"); }
  lemma PlainAm(v: string) requires v == "am" ensures PlainValue(v) { PlainWordValue("am"); }
  lemma PlainPm(v: string) requires v == "pm" ensures PlainValue(v) { PlainWordValue("pm"); }
  lemma PlainNoon(v: string) requires v == "noon" ensures PlainValue(v) { PlainWordValue("noon"); }
  lemma PlainMidnight(v: string) requires v == "midnight" ensures PlainValue(v) { PlainWordValue("midnight"); }
  lemma PlainSelf(v: string) requires v == "self" ensures PlainValue(v) { PlainWordValue("self"); }
  lemma PlainRoutine(v: string) requires v == "routine" ensures PlainValue(v) { PlainWordValue("routine"); }
  lemma PlainFaith(v: string) requires v == "faith" ensures PlainValue(v) { PlainWordValue("faith"); }
  lemma PlainWork(v: string) requires v == "work" ensures PlainValue(v) { PlainWordValue("work"); }
  lemma PlainWorkCap(v: string) requires v == "Work" ensures PlainValue(v) { PlainWordValue("Work"); }
  lemma PlainFamily(v: string) requires v == "family" ensures PlainValue(v) { PlainWordValue("family"); }
  lemma PlainSports(v: string) requires v == "sports" ensures PlainValue(v) { PlainWordValue("sports"); }
  lemma PlainBible(v: string) requires v == "bible" ensures PlainValue(v) { PlainWordValue("bible"); }
  lemma PlainMeeting(v: string) requires v == "meeting" ensures PlainValue(v) { PlainWordValue("meeting"); }
  lemma PlainExercise(v: string) requires v == "exercise" ensures PlainValue(v) { PlainWordValue("exercise"); }
  lemma PlainEsv(v: string) requires v == "ESV" ensures PlainValue(v) { PlainWordValue("ESV"); }
  lemma PlainVersion(v: string) requires v == "version" ensures PlainValue(v) { PlainWordValue("version"); }
  lemma PlainQuarterly(v: string) requires v == "quarterly" ensures PlainValue(v) { PlainWordValue("quarterly"); }
  lemma PlainReview(v: string) requires v == "review" ensures PlainValue(v) { PlainWordValue("review"); }
  lemma PlainMorning(v: string) requires v == "morning" ensures PlainValue(v) { PlainWordValue("morning"); }
  lemma PlainWalk(v: string) requires v == "walk" ensures PlainValue(v) { PlainWordValue("walk"); }
  lemma PlainMinutes(v: string) requires v == "minutes" ensures PlainValue(v) { PlainWordValue("minutes"); }

  lemma PlainSevenAm(v: string)
    requires v == "7 am"
    ensures PlainValue(v)
  {
    var u: string :| u == "7";
    var w: string :| w == "am";
    assert v == u + " " + w;
    Plain7(u);
    PlainAm(w);
    SpaceValue(u, w);
  }
  lemma PlainNineAm(v: string)
    requires v == "9 am"
    ensures PlainValue(v)
  {
    var u: string :| u == "9";
    var w: string :| w == "am";
    assert v == u + " " + w;
    Plain9(u);
    PlainAm(w);
    SpaceValue(u, w);
  }

  lemma PlainTenAm(v: string)
    requires v == "10 am"
    ensures PlainValue(v)
  {
    var u: string :| u == "10";
    var w: string :| w == "am";
    assert v == u + " " + w;
    Plain10(u);
    PlainAm(w);
    SpaceValue(u, w);
  }

  lemma PlainOnePm(v: string)
    requires v == "1 pm"
    ensures PlainValue(v)
  {
    var u: string :| u == "1";
    var w: string :| w == "pm";
    assert v == u + " " + w;
    Plain1(u);
    PlainPm(w);
    SpaceValue(u, w);
  }

  lemma PlainThreePm(v: string)
    requires v == "3 pm"
    ensures PlainValue(v)
  {
    var u: string :| u == "3";
    var w: string :| w == "pm";
    assert v == u + " " + w;
    Plain3(u);
    PlainPm(w);
    SpaceValue(u, w);
  }

  lemma PlainEsvVersion(v: string)
    requires v == "ESV version"
    ensures PlainValue(v)
  {
    var u: string :| u == "ESV";
    var w: string :| w == "version";
    assert v == u + " " + w;
    PlainEsv(u);
    PlainVersion(w);
    SpaceValue(u, w);
  }

  lemma PlainQuarterlyReview(v: string)
    requires v == "quarterly review"
    ensures PlainValue(v)
  {
    var u: string :| u == "quarterly";
    var w: string :| w == "review";
    assert v == u + " " + w;
    PlainQuarterly(u);
    PlainReview(w);
    SpaceValue(u, w);
  }

  lemma PlainMorningWalk(v: string)
    requires v == "morning walk"
    ensures PlainValue(v)
  {
    var u: string :| u == "morning";
    var w: string :| w == "walk";
    assert v == u + " " + w;
    PlainMorning(u);
    PlainWalk(w);
    SpaceValue(u, w);
  }

  lemma PlainThirtyMinutes(v: string)
    requires v == "30 minutes"
    ensures PlainValue(v)
  {
    var u: string :| u == "30";
    var w: string :| w == "minutes";
    assert v == u + " " + w;
    Plain30(u);
    PlainMinutes(w);
    SpaceValue(u, w);
  }

  lemma PlainNineThirtyAm(v: string)
    requires v == "9:30 am"
    ensures PlainValue(v)
  {
    var h: string :| h == "9";
    var m: string :| m == "30";
    var p: string :| p == "am";
    assert v == h + ":" + m + " " + p;
    Plain9(h);
    Plain30(m);
    PlainAm(p);
    ColonValue(h, m);
    SpaceValue(h + ":" + m, p);
  }

  lemma PlainElevenFortyFivePm(v: string)
    requires v == "11:45 pm"
    ensures PlainValue(v)
  {
    var h: string :| h == "11";
    var m: string :| m == "45";
    var p: string :| p == "pm";
    assert v == h + ":" + m + " " + p;
    Plain11(h);
    Plain45(m);
    PlainPm(p);
    ColonValue(h, m);
    SpaceValue(h + ":" + m, p);
  }

  // ---------------------------------------------------------------------
  // Times
  // ---------------------------------------------------------------------

  lemma TimeSevenAm(raw: string)
    requires raw == "7 am"
    ensures NormalizeTime(raw) == Some("07:00")
  {
    var h: string :| h == "7";
    var p: string :| p == "am";
    var g: string :| g == " ";
    var m := ClockMatch(h, None, Some(p));
    assert raw == ClockText(m, g);
    assert DigitsValue(h) == DigitValue(h[0]) by { assert h[..0] == []; }
    assert Pad2(7) + ":" + Pad2(0) == "07:00";
    NormalizeClockText(m, g);
  }

  lemma TimeNineAm(raw: string)
    requires raw == "9 am"
    ensures NormalizeTime(raw) == Some("09:00")
  {
    var h: string :| h == "9";
    var p: string :| p == "am";
    var g: string :| g == " ";
    var m := ClockMatch(h, None, Some(p));
    assert raw == ClockText(m, g);
    assert DigitsValue(h) == DigitValue(h[0]) by { assert h[..0] == []; }
    assert Pad2(9) + ":" + Pad2(0) == "09:00";
    NormalizeClockText(m, g);
  }

  lemma TimeTenAm(raw: string)
    requires raw == "10 am"
    ensures NormalizeTime(raw) == Some("10:00")
  {
    var h: string :| h == "10";
    var p: string :| p == "am";
    var g: string :| g == " ";
    var m := ClockMatch(h, None, Some(p));
    assert raw == ClockText(m, g);
    TwoDigits(h);
    assert Pad2(10) + ":" + Pad2(0) == "10:00";
    NormalizeClockText(m, g);
  }

  lemma TimeNine(raw: string)
    requires raw == "9"
    ensures NormalizeTime(raw) == Some("09:00")
  {
    var h: string :| h == "9";
    var g: string :| g == "";
    var m := ClockMatch(h, None, None);
    assert raw == ClockText(m, g);
    assert DigitsValue(h) == DigitValue(h[0]) by { assert h[..0] == []; }
    assert Pad2(9) + ":" + Pad2(0) == "09:00";
    NormalizeClockText(m, g);
  }

  lemma TimeTen(raw: string)
    requires raw == "10"
    ensures NormalizeTime(raw) == Some("10:00")
  {
    var h: string :| h == "10";
    var g: string :| g == "";
    var m := ClockMatch(h, None, None);
    assert raw == ClockText(m, g);
    TwoDigits(h);
    assert Pad2(10) + ":" + Pad2(0) == "10:00";
    NormalizeClockText(m, g);
  }

  lemma TimeEight(raw: string)
    requires raw == "8"
    ensures NormalizeTime(raw) == Some("08:00")
  {
    var h: string :| h == "8";
    var g: string :| g == "";
    var m := ClockMatch(h, None, None);
    assert raw == ClockText(m, g);
    assert DigitsValue(h) == DigitValue(h[0]) by { assert h[..0] == []; }
    assert Pad2(8) + ":" + Pad2(0) == "08:00";
    NormalizeClockText(m, g);
  }

  lemma TimeOnePm(raw: string)
    requires raw == "1 pm"
    ensures NormalizeTime(raw) == Some("13:00")
  {
    var h: string :| h == "1";
    var p: string :| p == "pm";
    var g: string :| g == " ";
    var m := ClockMatch(h, None, Some(p));
    assert raw == ClockText(m, g);
    assert DigitsValue(h) == DigitValue(h[0]) by { assert h[..0] == []; }
    assert Pad2(13) + ":" + Pad2(0) == "13:00";
    NormalizeClockText(m, g);
  }

  lemma TimeThreePm(raw: string)
    requires raw == "3 pm"
    ensures NormalizeTime(raw) == Some("15:00")
  {
    var h: string :| h == "3";
    var p: string :| p == "pm";
    var g: string :| g == " ";
    var m := ClockMatch(h, None, Some(p));
    assert raw == ClockText(m, g);
    assert DigitsValue(h) == DigitValue(h[0]) by { assert h[..0] == []; }
    assert Pad2(15) + ":" + Pad2(0) == "15:00";
    NormalizeClockText(m, g);
  }

  lemma TimeNineThirtyAm(raw: string)
    requires raw == "9:30 am"
    ensures NormalizeTime(raw) == Some("09:30")
  {
    var h: string :| h == "9";
    var n: string :| n == "30";
    var p: string :| p == "am";
    var g: string :| g == " ";
    var m := ClockMatch(h, Some(n), Some(p));
    assert raw == ClockText(m, g);
    assert DigitsValue(h) == DigitValue(h[0]) by { assert h[..0] == []; }
    TwoDigits(n);
    assert Pad2(9) + ":" + Pad2(30) == "09:30";
    NormalizeClockText(m, g);
  }

  lemma TimeElevenFortyFivePm(raw: string)
    requires raw == "11:45 pm"
    ensures NormalizeTime(raw) == Some("23:45")
  {
    var h: string :| h == "11";
    var n: string :| n == "45";
    var p: string :| p == "pm";
    var g: string :| g == " ";
    var m := ClockMatch(h, Some(n), Some(p));
    assert raw == ClockText(m, g);
    TwoDigits(h);
    TwoDigits(n);
    assert Pad2(23) + ":" + Pad2(45) == "23:45";
    NormalizeClockText(m, g);
  }

  lemma TimeNoon(raw: string)
    requires raw == "noon"
    ensures NormalizeTime(raw) == Some("12:00")
  {
    TimeTextWord(raw);
  }

  lemma TimeMidnight(raw: string)
    requires raw == "midnight"
    ensures NormalizeTime(raw) == Some("00:00")
  {
    TimeTextWord(raw);
  }

  /** A lower-case word is its own time text. */
  lemma TimeTextWord(w: string)
    requires IsWord(w) && forall i :: 0 <= i < |w| ==> !IsUpper(w[i])
    ensures TimeText(w) == w
  {
    WordSingleSpaced(w);
    forall i | 0 <= i < |w|
      ensures w[i] != '.' && !IsSpace(w[i])
    {
      WordCharNotSpace(w[i]);
    }
    TimeTextSettled(w);
  }

  // ---------------------------------------------------------------------
  // Categories and capitalisation
  // ---------------------------------------------------------------------

  lemma CategorySelf(c: string)
    requires c == "self"
    ensures CategoryNamed(LowerStr(c)) == Some(Self)
  {
    LowerOf(c, "self");
  }

  lemma CategoryRoutine(c: string)
    requires c == "routine"
    ensures CategoryNamed(LowerStr(c)) == Some(Routine)
  {
    LowerOf(c, "routine");
  }

  lemma CategoryFaith(c: string)
    requires c == "faith"
    ensures CategoryNamed(LowerStr(c)) == Some(Faith)
  {
    LowerOf(c, "faith");
  }

  lemma CategoryWork(c: string)
    requires c == "work"
    ensures CategoryNamed(LowerStr(c)) == Some(Work)
  {
    LowerOf(c, "work");
  }

  lemma CategoryWorkCap(c: string)
    requires c == "Work"
    ensures CategoryNamed(LowerStr(c)) == Some(Work)
  {
    LowerOf(c, "work");
  }

  lemma CategoryFamily(c: string)
    requires c == "family"
    ensures CategoryNamed(LowerStr(c)) == Some(Family)
  {
    LowerOf(c, "family");
  }

  lemma CategorySports(c: string)
    requires c == "sports"
    ensures CategoryNamed(LowerStr(c)) == None
  {
    LowerOf(c, "sports");
  }

  lemma CapBible(d: string)
    requires d == "bible"
    ensures Capitalize(d) == "Bible"
  {
  }

  lemma CapMeeting(d: string)
    requires d == "meeting"
    ensures Capitalize(d) == "Meeting"
  {
  }

  lemma CapExercise(d: string)
    requires d == "exercise"
    ensures Capitalize(d) == "Exercise"
  {
  }

  lemma CapEsvVersion(d: string)
    requires d == "ESV version"
    ensures Capitalize(d) == "ESV version"
  {
  }

  lemma CapQuarterlyReview(d: string)
    requires d == "quarterly review"
    ensures Capitalize(d) == "Quarterly review"
  {
  }

  lemma CapMorningWalk(d: string)
    requires d == "morning walk"
    ensures Capitalize(d) == "Morning walk"
  {
  }

  lemma CapThirtyMinutes(d: string)
    requires d == "30 minutes"
    ensures Capitalize(d) == "30 minutes"
  {
  }
}
