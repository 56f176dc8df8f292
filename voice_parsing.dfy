/** The landmark transcript parser (src/utils/voiceParsing.ts): a spoken or
    typed transcript becomes a partial time-log entry. */
module VoiceParsing {
  import opened Text
  import opened Wrappers
  import opened Storage

  // ---------------------------------------------------------------------
  // Vocabulary
  // ---------------------------------------------------------------------

  /** The spelled-out hours the parser understands. */
  const WORD_TO_NUM: map<string, nat> := map[
    "zero" := 0, "one" := 1, "two" := 2, "three" := 3, "four" := 4, "five" := 5,
    "six" := 6, "seven" := 7, "eight" := 8, "nine" := 9, "ten" := 10,
    "eleven" := 11, "twelve" := 12, "thirteen" := 13, "fourteen" := 14, "fifteen" := 15,
    "sixteen" := 16, "seventeen" := 17, "eighteen" := 18, "nineteen" := 19,
    "twenty" := 20]

  const CATEGORIES: seq<string> := ["self", "routine", "faith", "work", "family"]

  /** The landmark keywords, in the order the split pattern tries them. */
  const KEYWORDS: seq<string> := ["from", "to", "category", "sub-category", "description"]

  /** A partial entry: every field is independently present or absent. */
  datatype ParsedEntry = ParsedEntry(
    startTime: Option<string>,
    endTime: Option<string>,
    category: Option<Category>,
    subCategory: Option<string>,
    description: Option<string>)

  const EMPTY_ENTRY := ParsedEntry(None, None, None, None, None)

  // ---------------------------------------------------------------------
  // normalizeTime
  // ---------------------------------------------------------------------

  /** A zero-padded 24-hour clock time, HH:MM, with hour 0..23 and minute 0..59. */
  predicate IsClock(t: string)
  {
    IsHHMM(t) && HoursOf(t) <= 23 && MinutesOf(t) <= 59
  }

  function RemoveDots(s: string): (r: string)
    ensures |r| <= |s|
  {
    if s == [] then []
    else if s[0] == '.' then RemoveDots(s[1..])
    else [s[0]] + RemoveDots(s[1..])
  }

  /** The text a time expression is matched against: trimmed, lower-cased,
      dots removed, whitespace runs collapsed (in that order). */
  function TimeText(raw: string): string
  {
    CollapseSpaces(RemoveDots(LowerStr(Trim(raw))))
  }

  /** `s.split(' ')[0]`: everything before the first space. */
  function FirstToken(s: string): (r: string)
    ensures |r| <= |s| && r == s[..|r|]
    ensures forall k :: 0 <= k < |r| ==> r[k] != ' '
    ensures |r| == |s| || s[|r|] == ' '
  {
    if s == [] || s[0] == ' ' then [] else [s[0]] + FirstToken(s[1..])
  }

  /** `parseInt(d, 10)` of a string of decimal digits. */
  function DigitsValue(d: string): nat
    requires forall i :: 0 <= i < |d| ==> IsDigit(d[i])
  {
    if d == [] then 0 else 10 * DigitsValue(d[..|d| - 1]) + DigitValue(d[|d| - 1])
  }

  predicate AllDigits(d: string)
  {
    forall i :: 0 <= i < |d| ==> IsDigit(d[i])
  }

  /** The groups of `^(\d{1,2})(?::(\d{2}))?(?:\s*(am|pm))?$` when it matches. */
  datatype ClockMatch = ClockMatch(hour: string, minute: Option<string>, period: Option<string>)

  predicate ValidClockMatch(m: ClockMatch)
  {
    && 1 <= |m.hour| <= 2 && AllDigits(m.hour)
    && (m.minute.Some? ==> |m.minute.value| == 2 && AllDigits(m.minute.value))
    && (m.period.Some? ==> m.period.value == "am" || m.period.value == "pm")
  }

  /** The optional `\s*(am|pm)` group followed by the end of the text. */
  function MatchPeriod(r: string): (p: Option<Option<string>>)
  {
    if r == [] then Some(None)
    else
      var j := SkipSpaces(r, 0);
      if r[j..] == "am" || r[j..] == "pm" then Some(Some(r[j..])) else None
  }

  /** Whitespace-skipping helper for MatchPeriod: first non-space index at or after i. */
  function SkipSpaces(s: string, i: nat): (j: nat)
    requires i <= |s|
    ensures i <= j <= |s|
    ensures forall k :: i <= k < j ==> IsSpace(s[k])
    ensures j < |s| ==> !IsSpace(s[j])
    decreases |s| - i
  {
    if i == |s| || !IsSpace(s[i]) then i else SkipSpaces(s, i + 1)
  }

  /** The clock pattern of normalizeTime. The hour takes two digits when two
      are there: one digit followed by a digit can never complete a match. */
  function MatchClock(s: string): (r: Option<ClockMatch>)
    ensures r.Some? ==> ValidClockMatch(r.value)
  {
    if s == [] || !IsDigit(s[0]) then None
    else
      var h := if |s| >= 2 && IsDigit(s[1]) then 2 else 1;
      var rest := s[h..];
      var hasMinute := |rest| >= 3 && rest[0] == ':' && IsDigit(rest[1]) && IsDigit(rest[2]);
      var tail := if hasMinute then rest[3..] else rest;
      match MatchPeriod(tail)
      case None => None
      case Some(period) =>
        Some(ClockMatch(s[..h], if hasMinute then Some(rest[1..3]) else None, period))
  }

  /** The meridiem adjustment: "pm" adds 12 below noon, then "am" turns 12 into 0. */
  function Meridiem(hour: int, pm: bool, am: bool): int
  {
    var h := if pm && hour < 12 then hour + 12 else hour;
    if am && h == 12 then 0 else h
  }

  /** `String(n).padStart(2, '0')` for a number below 100. */
  function Pad2(n: nat): (r: string)
    requires n < 100
    ensures |r| == 2 && IsDigit(r[0]) && IsDigit(r[1])
    ensures 10 * DigitValue(r[0]) + DigitValue(r[1]) == n
  {
    [('0' as int + n / 10) as char, ('0' as int + n % 10) as char]
  }

  /** The hour and minute a time expression names, before the range check. */
  function HourMinute(s: string): Option<(int, int)>
  {
    var word := FirstToken(s);
    if word in WORD_TO_NUM then
      Some((Meridiem(WORD_TO_NUM[word], Contains(s, "pm"), Contains(s, "am")), 0))
    else
      match MatchClock(s)
      case None => None
      case Some(m) =>
        Some((Meridiem(DigitsValue(m.hour), m.period == Some("pm"), m.period == Some("am")),
              if m.minute.Some? then DigitsValue(m.minute.value) else 0))
  }

  /** normalizeTime: a time expression as HH:MM, or None. */
  function NormalizeTime(raw: string): (r: Option<string>)
    ensures r.Some? ==> IsClock(r.value)
  {
    var s := TimeText(raw);
    if s == "noon" then Some("12:00")
    else if s == "midnight" then Some("00:00")
    else
      match HourMinute(s)
      case None => None
      case Some((hour, minute)) =>
        if hour < 0 || hour > 23 || minute < 0 || minute > 59 then None
        else Some(Pad2(hour) + ":" + Pad2(minute))
  }

  // ---------------------------------------------------------------------
  // capitalize
  // ---------------------------------------------------------------------

  /** First character upper-cased, the rest unchanged. */
  function Capitalize(s: string): (r: string)
    ensures |r| == |s|
    ensures s != [] ==> r[0] == Upper(s[0]) && r[1..] == s[1..]
  {
    if s == [] then [] else [Upper(s[0])] + s[1..]
  }

  // ---------------------------------------------------------------------
  // Transcript normalisation
  // ---------------------------------------------------------------------

  /** `\bcolon\b`, case-insensitive, at position i. */
  predicate ColonAt(s: string, i: nat)
    requires i <= |s|
  {
    WordAt(s, i, "colon")
  }

  /** `replace(/\bcolon\b/gi, '')`, scanning from position i. */
  function StripColonFrom(s: string, i: nat): string
    requires i <= |s|
    decreases |s| - i
  {
    if i == |s| then ""
    else if ColonAt(s, i) then StripColonFrom(s, i + 5)
    else [s[i]] + StripColonFrom(s, i + 1)
  }

  function StripColon(s: string): string
  {
    StripColonFrom(s, 0)
  }

  /** The `\s?-?\s?` between "sub" and "category". */
  predicate IsSubMiddle(m: string)
  {
    || m == []
    || (|m| == 1 && (IsSpace(m[0]) || m[0] == '-'))
    || (|m| == 2 && ((IsSpace(m[0]) && (m[1] == '-' || IsSpace(m[1]))) || (m[0] == '-' && IsSpace(m[1]))))
    || (|m| == 3 && IsSpace(m[0]) && m[1] == '-' && IsSpace(m[2]))
  }

  /** `\bsub\s?-?\s?category\b` at position i with a middle of k characters. */
  predicate SubMatchAt(s: string, i: nat, k: nat)
    requires i <= |s|
  {
    && BoundaryAt(s, i)
    && i + 3 + k + 8 <= |s|
    && StartsWithCI(s, i, "sub")
    && IsSubMiddle(s[i + 3..i + 3 + k])
    && StartsWithCI(s, i + 3 + k, "category")
    && BoundaryAt(s, i + 3 + k + 8)
  }

  /** A character the middle of `sub\s?-?\s?category` may hold. */
  predicate IsSubMid(c: char)
  {
    IsSpace(c) || c == '-'
  }

  /** The first middle length, from k up to 3, at which the sub-category
      pattern matches at i. At most one middle length can match
      (SubMatchUnique), so the order the lengths are tried in does not
      change the outcome. */
  function SubMatchFrom(s: string, i: nat, k: nat): (r: Option<nat>)
    requires i <= |s|
    ensures r.Some? ==> i < i + r.value <= |s|
    decreases 4 - k
  {
    if k > 3 then None
    else if SubMatchAt(s, i, k) then Some(11 + k)
    else SubMatchFrom(s, i, k + 1)
  }

  /** The length of the sub-category match at i, if any. */
  function SubMatchLength(s: string, i: nat): (r: Option<nat>)
    requires i <= |s|
    ensures r.Some? ==> i < i + r.value <= |s|
  {
    SubMatchFrom(s, i, 0)
  }

  lemma {:induction false} SubMatchFromSound(s: string, i: nat, k: nat)
    requires i <= |s| && SubMatchFrom(s, i, k).Some?
    ensures 11 + k <= SubMatchFrom(s, i, k).value <= 14
    ensures SubMatchAt(s, i, SubMatchFrom(s, i, k).value - 11)
    decreases 4 - k
  {
    if k <= 3 && !SubMatchAt(s, i, k) {
      SubMatchFromSound(s, i, k + 1);
    }
  }

  /** What SubMatchLength finds is a match of the sub-category pattern. */
  lemma SubMatchLengthSound(s: string, i: nat)
    requires i <= |s| && SubMatchLength(s, i).Some?
    ensures 11 <= SubMatchLength(s, i).value <= 14
    ensures SubMatchAt(s, i, SubMatchLength(s, i).value - 11)
  {
    SubMatchFromSound(s, i, 0);
  }

  /** "category" starts with a letter and every middle character is
      whitespace or a hyphen, so a match leaves no room for one with a
      shorter middle. */
  lemma SubMatchUnique(s: string, i: nat, k: nat, k': nat)
    requires i <= |s| && SubMatchAt(s, i, k) && k' < k
    ensures !SubMatchAt(s, i, k')
  {
    var m := s[i + 3..i + 3 + k];
    assert s[i + 3 + k'] == m[k'];
    SubMidNotC(s[i + 3 + k']);
  }

  /** No middle character lower-cases to the 'c' that starts "category". */
  lemma SubMidNotC(c: char)
    requires IsSubMid(c)
    ensures Lower(c) != 'c'
  {
  }

  lemma {:induction false} SubMatchFromComplete(s: string, i: nat, k0: nat, k: nat)
    requires i <= |s| && SubMatchAt(s, i, k) && k0 <= k
    ensures SubMatchFrom(s, i, k0) == Some(11 + k)
    decreases k - k0
  {
    assert k <= 3 by {
      assert IsSubMiddle(s[i + 3..i + 3 + k]);
    }
    if k0 < k {
      SubMatchUnique(s, i, k, k0);
      SubMatchFromComplete(s, i, k0 + 1, k);
    }
  }

  /** Every match of the sub-category pattern is found, whatever its middle. */
  lemma SubMatchLengthComplete(s: string, i: nat, k: nat)
    requires i <= |s| && SubMatchAt(s, i, k)
    ensures SubMatchLength(s, i) == Some(11 + k)
  {
    SubMatchFromComplete(s, i, 0, k);
  }

  /** `replace(/\bsub\s?-?\s?category\b/gi, 'sub-category')`, from position i. */
  function CanonSubFrom(s: string, i: nat): string
    requires i <= |s|
    decreases |s| - i
  {
    if i == |s| then ""
    else match SubMatchLength(s, i)
      case Some(n) => "sub-category" + CanonSubFrom(s, i + n)
      case None => [s[i]] + CanonSubFrom(s, i + 1)
  }

  function CanonSub(s: string): string
  {
    CanonSubFrom(s, 0)
  }

  /** The four normalisation steps, in the source's order. */
  function Normalize(transcript: string): string
  {
    Trim(CollapseSpaces(CanonSub(StripColon(transcript))))
  }

  // ---------------------------------------------------------------------
  // Segmentation
  // ---------------------------------------------------------------------

  /** The first word of ws that matches at q as a whole word. */
  function FirstKeyword(s: string, q: nat, ws: seq<string>): (r: Option<string>)
    requires q <= |s|
    ensures r.Some? ==> r.value in ws && q + |r.value| <= |s|
  {
    if ws == [] then None
    else if WordAt(s, q, ws[0]) then Some(ws[0])
    else FirstKeyword(s, q, ws[1..])
  }

  /** `\b(from|to|category|sub-category|description)\b`, case-insensitive, at
      q: the alternatives are tried in the source's order. */
  function KeywordAt(s: string, q: nat): (r: Option<string>)
    requires q <= |s|
    ensures r.Some? ==> 0 < |r.value| && q + |r.value| <= |s|
  {
    FirstKeyword(s, q, KEYWORDS)
  }

  /** Where in ws the word FirstKeyword finds sits: it matches at q, and no
      alternative before it does. */
  lemma {:induction false} FirstKeywordFirst(s: string, q: nat, ws: seq<string>) returns (k: nat)
    requires q <= |s| && FirstKeyword(s, q, ws).Some?
    ensures k < |ws| && ws[k] == FirstKeyword(s, q, ws).value && WordAt(s, q, ws[k])
    ensures forall j :: 0 <= j < k ==> !WordAt(s, q, ws[j])
    decreases |ws|
  {
    if WordAt(s, q, ws[0]) {
      k := 0;
    } else {
      var k' := FirstKeywordFirst(s, q, ws[1..]);
      k := k' + 1;
      forall j | 0 < j < k
        ensures !WordAt(s, q, ws[j])
      {
        assert ws[j] == ws[1..][j - 1];
      }
    }
  }

  /** FirstKeyword finds nothing exactly when no alternative matches at q. */
  lemma {:induction false} FirstKeywordNone(s: string, q: nat, ws: seq<string>)
    requires q <= |s|
    ensures FirstKeyword(s, q, ws).None? <==> forall w :: w in ws ==> !WordAt(s, q, w)
    decreases |ws|
  {
    if ws != [] && !WordAt(s, q, ws[0]) {
      FirstKeywordNone(s, q, ws[1..]);
      assert forall w :: w in ws ==> w == ws[0] || w in ws[1..];
    }
  }

  /** What FirstKeyword finds matches at q as a whole word, no alternative
      before it in ws matches, and nothing is found only when no alternative
      matches. */
  lemma FirstKeywordMatches(s: string, q: nat, ws: seq<string>)
    requires q <= |s|
    ensures FirstKeyword(s, q, ws).Some? ==>
      && WordAt(s, q, FirstKeyword(s, q, ws).value)
      && exists k :: 0 <= k < |ws| && ws[k] == FirstKeyword(s, q, ws).value
           && forall j :: 0 <= j < k ==> !WordAt(s, q, ws[j])
    ensures FirstKeyword(s, q, ws).None? <==> forall w :: w in ws ==> !WordAt(s, q, w)
  {
    FirstKeywordNone(s, q, ws);
    if FirstKeyword(s, q, ws).Some? {
      var k := FirstKeywordFirst(s, q, ws);
    }
  }

  /** A keyword found at q is one of the five keywords, written there as a
      whole word in any case; it is the first of them, in the order the
      alternation lists them, that matches; and none is found only when no
      keyword matches at q. */
  lemma KeywordAtMatches(s: string, q: nat)
    requires q <= |s|
    ensures KeywordAt(s, q).Some? ==>
      && KeywordAt(s, q).value in KEYWORDS && WordAt(s, q, KeywordAt(s, q).value)
      && exists k :: 0 <= k < |KEYWORDS| && KEYWORDS[k] == KeywordAt(s, q).value
           && forall j :: 0 <= j < k ==> !WordAt(s, q, KEYWORDS[j])
    ensures KeywordAt(s, q).None? <==> forall w :: w in KEYWORDS ==> !WordAt(s, q, w)
  {
    FirstKeywordMatches(s, q, KEYWORDS);
  }

  /** Alternatives a keyword split can use: none of them is empty, so every
      match moves the scan forward. */
  predicate NonEmptyWords(ws: seq<string>)
  {
    forall w :: w in ws ==> |w| > 0
  }

  /** `split` on the alternation ws with a capturing group: the piece before
      each match, the match as written, and the remainder. p starts the
      current piece, q is the scan position. */
  function SplitWith(s: string, ws: seq<string>, p: nat, q: nat): (parts: seq<string>)
    requires NonEmptyWords(ws) && p <= q <= |s|
    ensures |parts| > 0
    decreases |s| - q
  {
    if q == |s| then [s[p..]]
    else match FirstKeyword(s, q, ws)
      case None => SplitWith(s, ws, p, q + 1)
      case Some(w) => [s[p..q], s[q..q + |w|]] + SplitWith(s, ws, q + |w|, q + |w|)
  }

  /** `text.split(/\b(from|to|category|sub-category|description)\b/i)`. */
  function SplitOnKeywords(text: string): (parts: seq<string>)
    ensures |parts| > 0
  {
    SplitWith(text, KEYWORDS, 0, 0)
  }

  /** The split alternates pieces and matches, and starts and ends with a
      piece. */
  lemma {:induction false} SplitWithOdd(s: string, ws: seq<string>, p: nat, q: nat)
    requires NonEmptyWords(ws) && p <= q <= |s|
    ensures |SplitWith(s, ws, p, q)| % 2 == 1
    decreases |s| - q
  {
    if q < |s| {
      match FirstKeyword(s, q, ws)
      case None => SplitWithOdd(s, ws, p, q + 1);
      case Some(w) => SplitWithOdd(s, ws, q + |w|, q + |w|);
    }
  }

  lemma SplitOnKeywordsOdd(text: string)
    ensures |SplitOnKeywords(text)| % 2 == 1
  {
    SplitWithOdd(text, KEYWORDS, 0, 0);
  }

  /** The characters `[\s,:]` stripped from both ends of a segment. */
  predicate IsSeparator(c: char)
  {
    IsSpace(c) || c == ',' || c == ':'
  }

  function DropLeadingSeparators(s: string): string
  {
    if s != [] && IsSeparator(s[0]) then DropLeadingSeparators(s[1..]) else s
  }

  function DropTrailingSeparators(s: string): string
  {
    if s != [] && IsSeparator(s[|s| - 1]) then DropTrailingSeparators(s[..|s| - 1]) else s
  }

  /** `replace(/^[\s,:]+|[\s,:]+$/g, '')`. */
  function StripSeparators(s: string): string
  {
    DropTrailingSeparators(DropLeadingSeparators(s))
  }

  /** `parts[i] ?? ''`. */
  function PartAt(parts: seq<string>, i: nat): string
  {
    if i < |parts| then parts[i] else ""
  }

  /** The dictionary after the first k steps of the segment loop: step j
      reads the keyword at 2j+1 and the segment after it, and stores the
      stripped segment when it is not empty. */
  function Collected(parts: seq<string>, k: nat): map<string, string>
    requires 2 * k <= |parts|
  {
    if k == 0 then map[]
    else
      var m := Collected(parts, k - 1);
      var key := LowerStr(parts[2 * k - 1]);
      var value := StripSeparators(PartAt(parts, 2 * k));
      if value != "" then m[key := value] else m
  }

  /** The keyword-to-segment dictionary of a split transcript. */
  function Segments(parts: seq<string>): map<string, string>
  {
    Collected(parts, |parts| / 2)
  }

  // ---------------------------------------------------------------------
  // Field extraction
  // ---------------------------------------------------------------------

  /** `if (segments[key])`: the key is set to a non-empty string. */
  predicate Truthy(segments: map<string, string>, key: string)
  {
    key in segments && segments[key] != ""
  }

  /** The category whose stored name is exactly `name`. */
  function CategoryNamed(name: string): (r: Option<Category>)
    ensures r.Some? ==> r.value.Name() == name
    ensures r.Some? <==> name in CATEGORIES
  {
    if name == "self" then Some(Self)
    else if name == "routine" then Some(Routine)
    else if name == "faith" then Some(Faith)
    else if name == "work" then Some(Work)
    else if name == "family" then Some(Family)
    else None
  }

  /** The entry the source builds from the segment dictionary. */
  function EntryFrom(segments: map<string, string>): ParsedEntry
  {
    ParsedEntry(
      if Truthy(segments, "from") then NormalizeTime(segments["from"]) else None,
      if Truthy(segments, "to") then NormalizeTime(segments["to"]) else None,
      if Truthy(segments, "category") then CategoryNamed(LowerStr(segments["category"])) else None,
      if Truthy(segments, "sub-category") then Some(Capitalize(segments["sub-category"])) else None,
      if Truthy(segments, "description") then Some(Capitalize(segments["description"])) else None)
  }

  /** parseVoiceEntry as a function of the transcript. */
  function ParseVoice(transcript: string): ParsedEntry
  {
    EntryFrom(Segments(SplitOnKeywords(Normalize(transcript))))
  }

  /** The segment loop of parseVoiceEntry: each keyword part at an odd index
      stores the stripped part after it, when that is not empty. */
  method CollectSegments(parts: seq<string>) returns (segments: map<string, string>)
    ensures segments == Segments(parts)
  {
    segments := map[];
    var i := 1;
    ghost var k := 0;
    while i < |parts|
      invariant i == 2 * k + 1 && 2 * k <= |parts|
      invariant segments == Collected(parts, k)
    {
      var key := LowerStr(parts[i]);
      var value := StripSeparators(PartAt(parts, i + 1));
      if value != "" {
        segments := segments[key := value];
      }
      i := i + 2;
      k := k + 1;
    }
    assert k == |parts| / 2;
  }

  /** parseVoiceEntry: normalise, split on keywords, collect the segments,
      then fill in the fields one by one. */
  method ParseVoiceEntry(transcript: string) returns (result: ParsedEntry)
    ensures result == ParseVoice(transcript)
  {
    result := EMPTY_ENTRY;
    var text := Normalize(transcript);
    var parts := SplitOnKeywords(text);
    var segments := CollectSegments(parts);
    if Truthy(segments, "from") {
      var start := NormalizeTime(segments["from"]);
      if start.Some? {
        result := result.(startTime := start);
      }
    }
    if Truthy(segments, "to") {
      var end := NormalizeTime(segments["to"]);
      if end.Some? {
        result := result.(endTime := end);
      }
    }
    if Truthy(segments, "category") {
      var cat := LowerStr(segments["category"]);
      if cat in CATEGORIES {
        result := result.(category := CategoryNamed(cat));
      }
    }
    if Truthy(segments, "sub-category") {
      result := result.(subCategory := Some(Capitalize(segments["sub-category"])));
    }
    if Truthy(segments, "description") {
      result := result.(description := Some(Capitalize(segments["description"])));
    }
  }
}
