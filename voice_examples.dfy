/** The examples of the parser's test suite (src/utils/voiceParsing.test.ts),
    each stated about its transcript with the spoken values as parameters
    and proved from the model: the whole entry, not only the fields a test
    inspects. */
module VoiceExamples {
  import opened Text
  import opened Wrappers
  import opened Storage
  import opened VoiceParsing
  import opened TranscriptRender
  import opened ExampleFacts

  // ---------------------------------------------------------------------
  // With colons, commas, or neither
  // ---------------------------------------------------------------------

  /** "full entry with colons". */
  lemma FullEntryWithColons(a: string, b: string, c: string, d: string, e: string)
    requires a == "7 am" && b == "9 am" && c == "faith" && d == "bible" && e == "ESV version"
    ensures ParseVoice("from " + a + " to " + b + ", category: " + c + ", sub-category: " + d + ", description: " + e)
      == ParsedEntry(Some("07:00"), Some("09:00"), Some(Faith), Some("Bible"), Some("ESV version"))
  {
    PlainSevenAm(a);
    PlainNineAm(b);
    PlainFaith(c);
    PlainBible(d);
    PlainEsvVersion(e);
    var f := KeyFrom();
    var t := KeyTo();
    var k := KeyCategory();
    var s := KeySubHyphen();
    var n := KeyDescription();
    ColonPhrases(f, t, k, s, n);
    AllFieldsEntry(Clause(" ", f, " ", a), Clause(" ", t, " ", b), Clause(", ", k, ": ", c),
                   Clause(", ", s, ": ", d), Clause(", ", n, ": ", e),
                   "from ", " to ", ", category: ", ", sub-category: ", ", description: ");
    TimeSevenAm(a);
    TimeNineAm(b);
    CategoryFaith(c);
    CapBible(d);
    CapEsvVersion(e);
  }

  lemma ColonPhrases(f: string, t: string, k: string, s: string, n: string)
    requires f == "from" && t == "to" && k == "category" && s == "sub-category" && n == "description"
    ensures "from " == f + " " && " to " == " " + t + " " && ", category: " == ", " + k + ": "
    ensures ", sub-category: " == ", " + s + ": " && ", description: " == ", " + n + ": "
  {
  }

  /** "full entry without colons — comma separated". */
  lemma FullEntryCommaSeparated(a: string, b: string, c: string, d: string, e: string)
    requires a == "7 am" && b == "9 am" && c == "faith" && d == "bible" && e == "ESV version"
    ensures ParseVoice("from " + a + " to " + b + ", category " + c + ", sub-category " + d + ", description " + e)
      == ParsedEntry(Some("07:00"), Some("09:00"), Some(Faith), Some("Bible"), Some("ESV version"))
  {
    PlainSevenAm(a);
    PlainNineAm(b);
    PlainFaith(c);
    PlainBible(d);
    PlainEsvVersion(e);
    var f := KeyFrom();
    var t := KeyTo();
    var k := KeyCategory();
    var s := KeySubHyphen();
    var n := KeyDescription();
    CommaPhrases(f, t, k, s, n);
    AllFieldsEntry(Clause(" ", f, " ", a), Clause(" ", t, " ", b), Clause(", ", k, " ", c),
                   Clause(", ", s, " ", d), Clause(", ", n, " ", e),
                   "from ", " to ", ", category ", ", sub-category ", ", description ");
    TimeSevenAm(a);
    TimeNineAm(b);
    CategoryFaith(c);
    CapBible(d);
    CapEsvVersion(e);
  }

  lemma CommaPhrases(f: string, t: string, k: string, s: string, n: string)
    requires f == "from" && t == "to" && k == "category" && s == "sub-category" && n == "description"
    ensures "from " == f + " " && " to " == " " + t + " " && ", category " == ", " + k + " "
    ensures ", sub-category " == ", " + s + " " && ", description " == ", " + n + " "
  {
  }

  /** "full entry without colons and no commas", with "sub category" spoken as two words. */
  lemma FullEntryNoCommas(a: string, b: string, c: string, d: string, e: string)
    requires a == "7 am" && b == "9 am" && c == "faith" && d == "bible" && e == "ESV version"
    ensures ParseVoice("from " + a + " to " + b + " category " + c + " sub category " + d + " description " + e)
      == ParsedEntry(Some("07:00"), Some("09:00"), Some(Faith), Some("Bible"), Some("ESV version"))
  {
    PlainSevenAm(a);
    PlainNineAm(b);
    PlainFaith(c);
    PlainBible(d);
    PlainEsvVersion(e);
    var f := KeyFrom();
    var t := KeyTo();
    var k := KeyCategory();
    var s := KeySubSpace();
    var n := KeyDescription();
    SpacePhrases(f, t, k, s, n);
    AllFieldsEntry(Clause(" ", f, " ", a), Clause(" ", t, " ", b), Clause(" ", k, " ", c),
                   Clause(" ", s, " ", d), Clause(" ", n, " ", e),
                   "from ", " to ", " category ", " sub category ", " description ");
    TimeSevenAm(a);
    TimeNineAm(b);
    CategoryFaith(c);
    CapBible(d);
    CapEsvVersion(e);
  }

  lemma SpacePhrases(f: string, t: string, k: string, s: string, n: string)
    requires f == "from" && t == "to" && k == "category" && s == "sub category" && n == "description"
    ensures "from " == f + " " && " to " == " " + t + " " && " category " == " " + k + " "
    ensures " sub category " == " " + s + " " && " description " == " " + n + " "
  {
  }

  /** "spoken "colon" as a word". */
  lemma SpokenColon(a: string, b: string, c: string, d: string, e: string)
    requires a == "9 am" && b == "10 am" && c == "work" && d == "meeting" && e == "quarterly review"
    ensures ParseVoice("from " + a + " to " + b + ", category colon " + c + ", sub-category colon " + d
                       + ", description colon " + e)
      == ParsedEntry(Some("09:00"), Some("10:00"), Some(Work), Some("Meeting"), Some("Quarterly review"))
  {
    PlainNineAm(a);
    PlainTenAm(b);
    PlainWork(c);
    PlainMeeting(d);
    PlainQuarterlyReview(e);
    var f := KeyFrom();
    var t := KeyTo();
    var k := KeyCategory();
    var s := KeySubHyphen();
    var n := KeyDescription();
    SpokenColonPhrases(f, t, k, s, n);
    AllFieldsEntry(Clause(" ", f, " ", a), Clause(" ", t, " ", b), Clause(", ", k, " colon ", c),
                   Clause(", ", s, " colon ", d), Clause(", ", n, " colon ", e),
                   "from ", " to ", ", category colon ", ", sub-category colon ", ", description colon ");
    TimeNineAm(a);
    TimeTenAm(b);
    CategoryWork(c);
    CapMeeting(d);
    CapQuarterlyReview(e);
  }

  lemma SpokenColonPhrases(f: string, t: string, k: string, s: string, n: string)
    requires f == "from" && t == "to" && k == "category" && s == "sub-category" && n == "description"
    ensures "from " == f + " " && " to " == " " + t + " " && ", category colon " == ", " + k + " colon "
    ensures ", sub-category colon " == ", " + s + " colon " && ", description colon " == ", " + n + " colon "
  {
  }

  // ---------------------------------------------------------------------
  // Categories and the case of labels
  // ---------------------------------------------------------------------

  /** "detects all five categories": `from 9 to 10, category <name>` for each stored name. */
  lemma DetectsAllCategories(a: string, b: string, c: string, cat: Category)
    requires a == "9" && b == "10" && c == cat.Name()
    ensures ParseVoice("from " + a + " to " + b + ", category " + c)
      == ParsedEntry(Some("09:00"), Some("10:00"), Some(cat), None, None)
  {
    Plain9(a);
    Plain10(b);
    NamedValue(c, cat);
    FromToCategoryTimes(a, b, c);
  }

  /** Each stored name is a plain value that names its category. */
  lemma NamedValue(c: string, cat: Category)
    requires c == cat.Name()
    ensures PlainValue(c) && CategoryNamed(LowerStr(c)) == Some(cat)
  {
    match cat
    case Self => PlainSelf(c); CategorySelf(c);
    case Routine => PlainRoutine(c); CategoryRoutine(c);
    case Faith => PlainFaith(c); CategoryFaith(c);
    case Work => PlainWork(c); CategoryWork(c);
    case Family => PlainFamily(c); CategoryFamily(c);
  }

  /** `from 9 to 10, category C` for a plain value C. */
  lemma FromToCategoryTimes(a: string, b: string, c: string)
    requires a == "9" && b == "10" && PlainValue(a) && PlainValue(b) && PlainValue(c)
    ensures ParseVoice("from " + a + " to " + b + ", category " + c)
      == ParsedEntry(Some("09:00"), Some("10:00"), CategoryNamed(LowerStr(c)), None, None)
  {
    var f := KeyFrom();
    var t := KeyTo();
    var k := KeyCategory();
    CategoryPhrases(f, t, k);
    FromToCategoryEntry(Clause(" ", f, " ", a), Clause(" ", t, " ", b), Clause(", ", k, " ", c),
                        "from ", " to ", ", category ");
    TimeNine(a);
    TimeTen(b);
  }

  lemma CategoryPhrases(f: string, t: string, k: string)
    requires f == "from" && t == "to" && k == "category"
    ensures "from " == f + " " && " to " == " " + t + " " && ", category " == ", " + k + " "
  {
  }

  /** "labels are case-insensitive". */
  lemma CaseInsensitiveLabels(a: string, b: string, c: string, d: string, e: string)
    requires a == "9 am" && b == "10 am" && c == "Work" && d == "meeting" && e == "quarterly review"
    ensures ParseVoice("from " + a + " to " + b + ", Category " + c + ", Sub-Category " + d + ", Description " + e)
      == ParsedEntry(Some("09:00"), Some("10:00"), Some(Work), Some("Meeting"), Some("Quarterly review"))
  {
    PlainNineAm(a);
    PlainTenAm(b);
    PlainWorkCap(c);
    PlainMeeting(d);
    PlainQuarterlyReview(e);
    var f := KeyFrom();
    var t := KeyTo();
    var k := KeyCategoryCap();
    var s := KeySubTitle();
    var n := KeyDescriptionCap();
    TitlePhrases(f, t, k, s, n);
    AllFieldsEntry(Clause(" ", f, " ", a), Clause(" ", t, " ", b), Clause(", ", k, " ", c),
                   Clause(", ", s, " ", d), Clause(", ", n, " ", e),
                   "from ", " to ", ", Category ", ", Sub-Category ", ", Description ");
    TimeNineAm(a);
    TimeTenAm(b);
    CategoryWorkCap(c);
    CapMeeting(d);
    CapQuarterlyReview(e);
  }

  lemma TitlePhrases(f: string, t: string, k: string, s: string, n: string)
    requires f == "from" && t == "to" && k == "Category" && s == "Sub-Category" && n == "Description"
    ensures "from " == f + " " && " to " == " " + t + " " && ", Category " == ", " + k + " "
    ensures ", Sub-Category " == ", " + s + " " && ", Description " == ", " + n + " "
  {
  }

  // ---------------------------------------------------------------------
  // Spellings of "sub-category"
  // ---------------------------------------------------------------------

  /** "subcategory" without hyphen or space. */
  lemma SubcategoryOneWord(a: string, b: string, c: string, d: string)
    requires a == "8" && b == "9" && c == "self" && d == "exercise"
    ensures ParseVoice("from " + a + " to " + b + ", category " + c + ", subcategory " + d)
      == ParsedEntry(Some("08:00"), Some("09:00"), Some(Self), Some("Exercise"), None)
  {
    Plain8(a);
    Plain9(b);
    PlainSelf(c);
    PlainExercise(d);
    var f := KeyFrom();
    var t := KeyTo();
    var k := KeyCategory();
    var s := KeySubcategory();
    SubcategoryPhrases(f, t, k, s);
    FromToSubEntry(Clause(" ", f, " ", a), Clause(" ", t, " ", b), Clause(", ", k, " ", c), Clause(", ", s, " ", d),
                   "from ", " to ", ", category ", ", subcategory ");
    TimeEight(a);
    TimeNine(b);
    CategorySelf(c);
    CapExercise(d);
  }

  lemma SubcategoryPhrases(f: string, t: string, k: string, s: string)
    requires f == "from" && t == "to" && k == "category" && s == "subcategory"
    ensures "from " == f + " " && " to " == " " + t + " " && ", category " == ", " + k + " "
    ensures ", subcategory " == ", " + s + " "
  {
  }

  /** "sub category" with a space. */
  lemma SubCategoryTwoWords(a: string, b: string, c: string, d: string)
    requires a == "8" && b == "9" && c == "self" && d == "exercise"
    ensures ParseVoice("from " + a + " to " + b + ", category " + c + ", sub category " + d)
      == ParsedEntry(Some("08:00"), Some("09:00"), Some(Self), Some("Exercise"), None)
  {
    Plain8(a);
    Plain9(b);
    PlainSelf(c);
    PlainExercise(d);
    var f := KeyFrom();
    var t := KeyTo();
    var k := KeyCategory();
    var s := KeySubSpace();
    SubSpacePhrases(f, t, k, s);
    FromToSubEntry(Clause(" ", f, " ", a), Clause(" ", t, " ", b), Clause(", ", k, " ", c), Clause(", ", s, " ", d),
                   "from ", " to ", ", category ", ", sub category ");
    TimeEight(a);
    TimeNine(b);
    CategorySelf(c);
    CapExercise(d);
  }

  lemma SubSpacePhrases(f: string, t: string, k: string, s: string)
    requires f == "from" && t == "to" && k == "category" && s == "sub category"
    ensures "from " == f + " " && " to " == " " + t + " " && ", category " == ", " + k + " "
    ensures ", sub category " == ", " + s + " "
  {
  }

  // ---------------------------------------------------------------------
  // Time formats
  // ---------------------------------------------------------------------

  /** "numeric times with am/pm". */
  lemma NumericTimes(a: string, b: string, c: string)
    requires a == "9:30 am" && b == "11:45 pm" && c == "work"
    ensures ParseVoice("from " + a + " to " + b + ", category " + c)
      == ParsedEntry(Some("09:30"), Some("23:45"), Some(Work), None, None)
  {
    PlainNineThirtyAm(a);
    PlainElevenFortyFivePm(b);
    PlainWork(c);
    var f := KeyFrom();
    var t := KeyTo();
    var k := KeyCategory();
    CategoryPhrases(f, t, k);
    FromToCategoryEntry(Clause(" ", f, " ", a), Clause(" ", t, " ", b), Clause(", ", k, " ", c),
                        "from ", " to ", ", category ");
    TimeNineThirtyAm(a);
    TimeElevenFortyFivePm(b);
    CategoryWork(c);
  }

  /** "noon and midnight keywords". */
  lemma NoonAndMidnight(a: string, b: string, c: string)
    requires a == "noon" && b == "midnight" && c == "self"
    ensures ParseVoice("from " + a + " to " + b + ", category " + c)
      == ParsedEntry(Some("12:00"), Some("00:00"), Some(Self), None, None)
  {
    PlainNoon(a);
    PlainMidnight(b);
    PlainSelf(c);
    var f := KeyFrom();
    var t := KeyTo();
    var k := KeyCategory();
    CategoryPhrases(f, t, k);
    FromToCategoryEntry(Clause(" ", f, " ", a), Clause(" ", t, " ", b), Clause(", ", k, " ", c),
                        "from ", " to ", ", category ");
    TimeNoon(a);
    TimeMidnight(b);
    CategorySelf(c);
  }

  /** "pm conversion". */
  lemma PmConversion(a: string, b: string, c: string)
    requires a == "1 pm" && b == "3 pm" && c == "family"
    ensures ParseVoice("from " + a + " to " + b + ", category " + c)
      == ParsedEntry(Some("13:00"), Some("15:00"), Some(Family), None, None)
  {
    PlainOnePm(a);
    PlainThreePm(b);
    PlainFamily(c);
    var f := KeyFrom();
    var t := KeyTo();
    var k := KeyCategory();
    CategoryPhrases(f, t, k);
    FromToCategoryEntry(Clause(" ", f, " ", a), Clause(" ", t, " ", b), Clause(", ", k, " ", c),
                        "from ", " to ", ", category ");
    TimeOnePm(a);
    TimeThreePm(b);
    CategoryFamily(c);
  }

  // ---------------------------------------------------------------------
  // Partial and missing fields
  // ---------------------------------------------------------------------

  /** "only time — no other fields". */
  lemma OnlyTime(a: string, b: string)
    requires a == "9 am" && b == "10 am"
    ensures ParseVoice("from " + a + " to " + b) == ParsedEntry(Some("09:00"), Some("10:00"), None, None, None)
  {
    PlainNineAm(a);
    PlainTenAm(b);
    var f := KeyFrom();
    var t := KeyTo();
    TimePhrases(f, t);
    FromToEntry(Clause(" ", f, " ", a), Clause(" ", t, " ", b), "from ", " to ");
    TimeNineAm(a);
    TimeTenAm(b);
  }

  lemma TimePhrases(f: string, t: string)
    requires f == "from" && t == "to"
    ensures "from " == f + " " && " to " == " " + t + " "
  {
  }

  /** "no time — only labeled fields". */
  lemma OnlyLabels(c: string, d: string, e: string)
    requires c == "routine" && d == "morning walk" && e == "30 minutes"
    ensures ParseVoice("category " + c + ", sub-category " + d + ", description " + e)
      == ParsedEntry(None, None, Some(Routine), Some("Morning walk"), Some("30 minutes"))
  {
    PlainRoutine(c);
    PlainMorningWalk(d);
    PlainThirtyMinutes(e);
    var k := KeyCategory();
    var s := KeySubHyphen();
    var n := KeyDescription();
    LabelPhrases(k, s, n);
    LabelsEntry(Clause(" ", k, " ", c), Clause(", ", s, " ", d), Clause(", ", n, " ", e),
                "category ", ", sub-category ", ", description ");
    CategoryRoutine(c);
    CapMorningWalk(d);
    CapThirtyMinutes(e);
  }

  lemma LabelPhrases(k: string, s: string, n: string)
    requires k == "category" && s == "sub-category" && n == "description"
    ensures "category " == k + " " && ", sub-category " == ", " + s + " " && ", description " == ", " + n + " "
  {
  }

  /** "unrecognised category is ignored". */
  lemma UnrecognisedCategory(a: string, b: string, c: string)
    requires a == "9" && b == "10" && c == "sports"
    ensures ParseVoice("from " + a + " to " + b + ", category " + c)
      == ParsedEntry(Some("09:00"), Some("10:00"), None, None, None)
  {
    Plain9(a);
    Plain10(b);
    PlainSports(c);
    FromToCategoryTimes(a, b, c);
    CategorySports(c);
  }

  /** "empty string returns empty object". */
  lemma EmptyTranscript(t: string)
    requires t == ""
    ensures ParseVoice(t) == EMPTY_ENTRY
  {
  }
}
