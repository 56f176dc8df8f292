/** Properties of normalizeTime: the clock pattern accepts exactly the
    texts it should, the meridiem step is the usual 12-hour conversion,
    number words always give a whole hour, and every HH:MM it produces is
    read back unchanged. */
module TimeProps {
  import opened Text
  import opened Wrappers
  import opened Storage
  import opened VoiceParsing

  // ---------------------------------------------------------------------
  // The clock pattern
  // ---------------------------------------------------------------------

  /** Whitespace only: what `\s*` may match. */
  predicate IsGap(gap: string)
  {
    forall i :: 0 <= i < |gap| ==> IsSpace(gap[i])
  }

  /** The text `^(\d{1,2})(?::(\d{2}))?(?:\s*(am|pm))?$` reads as the groups
      of m, with gap standing between the time and the period. */
  function ClockText(m: ClockMatch, gap: string): string
  {
    m.hour + (MinutePart(m) + PeriodPart(m, gap))
  }

  function MinutePart(m: ClockMatch): string
  {
    if m.minute.Some? then ":" + m.minute.value else ""
  }

  function PeriodPart(m: ClockMatch, gap: string): string
  {
    if m.period.Some? then gap + m.period.value else ""
  }

  lemma SkipGap(gap: string, p: string)
    requires IsGap(gap) && |p| > 0 && !IsSpace(p[0])
    ensures SkipSpaces(gap + p, 0) == |gap|
  {
    assert (gap + p)[|gap|] == p[0];
  }

  /** The period part is matched by the `\s*(am|pm)` group. */
  lemma PeriodComplete(m: ClockMatch, gap: string)
    requires ValidClockMatch(m) && IsGap(gap)
    ensures MatchPeriod(PeriodPart(m, gap)) == Some(m.period)
  {
    if m.period.Some? {
      var r := gap + m.period.value;
      SkipGap(gap, m.period.value);
      assert r[|gap|..] == m.period.value;
    }
  }

  /** The period part never starts with a digit or a colon. */
  lemma PeriodStart(m: ClockMatch, gap: string)
    requires ValidClockMatch(m) && IsGap(gap)
    ensures var pp := PeriodPart(m, gap); pp == [] || (!IsDigit(pp[0]) && pp[0] != ':')
  {
    if m.period.Some? && gap != [] {
      assert PeriodPart(m, gap)[0] == gap[0];
    }
  }

  lemma HourComplete(m: ClockMatch, gap: string)
    requires ValidClockMatch(m) && IsGap(gap)
    ensures var s := ClockText(m, gap);
      && (if |s| >= 2 && IsDigit(s[1]) then 2 else 1) == |m.hour|
      && s[..|m.hour|] == m.hour && s[|m.hour|..] == MinutePart(m) + PeriodPart(m, gap)
  {
    PeriodStart(m, gap);
  }

  lemma MinuteComplete(m: ClockMatch, gap: string)
    requires ValidClockMatch(m) && IsGap(gap)
    ensures var rest := MinutePart(m) + PeriodPart(m, gap);
      var hasMinute := |rest| >= 3 && rest[0] == ':' && IsDigit(rest[1]) && IsDigit(rest[2]);
      && hasMinute == m.minute.Some?
      && (hasMinute ==> rest[1..3] == m.minute.value && rest[3..] == PeriodPart(m, gap))
      && (!hasMinute ==> rest == PeriodPart(m, gap))
  {
    PeriodStart(m, gap);
  }

  /** Every text the clock pattern describes is matched, with these groups. */
  lemma MatchClockComplete(m: ClockMatch, gap: string)
    requires ValidClockMatch(m) && IsGap(gap)
    ensures MatchClock(ClockText(m, gap)) == Some(m)
  {
    HourComplete(m, gap);
    MinuteComplete(m, gap);
    PeriodComplete(m, gap);
  }

  lemma PeriodSound(tail: string)
    requires MatchPeriod(tail).Some?
    ensures exists gap :: IsGap(gap) && tail == PeriodPart(ClockMatch("", None, MatchPeriod(tail).value), gap)
  {
    if tail != [] {
      var j := SkipSpaces(tail, 0);
      var gap := tail[..j];
      assert tail == gap + tail[j..];
      assert IsGap(gap) && tail == PeriodPart(ClockMatch("", None, MatchPeriod(tail).value), gap);
    } else {
      assert IsGap("") && tail == PeriodPart(ClockMatch("", None, None), "");
    }
  }

  /** A match splits its text into the hour, the minute part and a tail the
      period group accepts. */
  lemma MatchClockParts(s: string)
    requires MatchClock(s).Some?
    ensures var m := MatchClock(s).value; var n := |m.hour| + |MinutePart(m)|;
      && n <= |s| && s == m.hour + (MinutePart(m) + s[n..])
      && MatchPeriod(s[n..]) == Some(m.period)
  {
    var m := MatchClock(s).value;
    var h := if |s| >= 2 && IsDigit(s[1]) then 2 else 1;
    var rest := s[h..];
    var hasMinute := |rest| >= 3 && rest[0] == ':' && IsDigit(rest[1]) && IsDigit(rest[2]);
    var tail := if hasMinute then rest[3..] else rest;
    assert MatchPeriod(tail).Some?;
    assert m == ClockMatch(s[..h], if hasMinute then Some(rest[1..3]) else None, MatchPeriod(tail).value);
    assert s == m.hour + rest;
    if hasMinute {
      assert rest == MinutePart(m) + tail;
      assert s[h + 3..] == tail;
    }
  }

  /** Every text the clock pattern matches is the text of its groups. */
  lemma MatchClockSound(s: string)
    requires MatchClock(s).Some?
    ensures exists gap :: IsGap(gap) && s == ClockText(MatchClock(s).value, gap)
  {
    var m := MatchClock(s).value;
    MatchClockParts(s);
    var tail := s[|m.hour| + |MinutePart(m)|..];
    PeriodSound(tail);
    var gap :| IsGap(gap) && tail == PeriodPart(ClockMatch("", None, m.period), gap);
    assert tail == PeriodPart(m, gap);
  }

  // ---------------------------------------------------------------------
  // Hours
  // ---------------------------------------------------------------------

  /** With exactly one of am and pm, the meridiem step is the 12-hour clock
      conversion: 12 am is midnight, 12 pm is noon. */
  lemma MeridiemTwelveHour(h: int)
    requires 1 <= h <= 12
    ensures Meridiem(h, true, false) == h % 12 + 12
    ensures Meridiem(h, false, true) == h % 12
  {
  }

  /** Without a period, the hour is kept; a 24-hour clock hour stays in range
      whatever the period. */
  lemma MeridiemRange(h: int, pm: bool, am: bool)
    requires 0 <= h <= 23
    ensures 0 <= Meridiem(h, pm, am) <= 23
    ensures !pm && !am ==> Meridiem(h, pm, am) == h
    ensures pm && 0 < h < 12 ==> Meridiem(h, pm, am) == h + 12
    ensures pm && h >= 12 && (h != 12 || !am) ==> Meridiem(h, pm, am) == h
  {
  }

  lemma WordValues()
    ensures forall w :: w in WORD_TO_NUM ==> WORD_TO_NUM[w] <= 20
  {
  }

  /** A number word as the first token always gives a time on the hour. */
  lemma WordHourTime(raw: string)
    requires var s := TimeText(raw); s != "noon" && s != "midnight" && FirstToken(s) in WORD_TO_NUM
    ensures NormalizeTime(raw).Some?
    ensures NormalizeTime(raw).value[3..] == "00"
    ensures var s := TimeText(raw);
      HoursOf(NormalizeTime(raw).value)
        == Meridiem(WORD_TO_NUM[FirstToken(s)], Contains(s, "pm"), Contains(s, "am"))
  {
    var s := TimeText(raw);
    WordValues();
    var w := FirstToken(s);
    MeridiemRange(WORD_TO_NUM[w], Contains(s, "pm"), Contains(s, "am"));
    var h := Meridiem(WORD_TO_NUM[w], Contains(s, "pm"), Contains(s, "am"));
    var t := Pad2(h) + ":" + Pad2(0);
    assert NormalizeTime(raw) == Some(t);
    assert t[3..] == Pad2(0);
  }

  // ---------------------------------------------------------------------
  // Clock strings read back unchanged
  // ---------------------------------------------------------------------

  lemma {:induction false} RemoveDotsNone(s: string)
    requires forall i :: 0 <= i < |s| ==> s[i] != '.'
    ensures RemoveDots(s) == s
  {
    if s != [] {
      RemoveDotsNone(s[1..]);
    }
  }

  lemma {:induction false} FirstTokenNoSpace(s: string)
    requires forall k :: 0 <= k < |s| ==> s[k] != ' '
    ensures FirstToken(s) == s
  {
    if s != [] {
      FirstTokenNoSpace(s[1..]);
    }
  }

  /** Text normalizeTime's clean-up leaves as it is: trimmed, lower case,
      without dots and single-spaced. */
  predicate Settled(s: string)
  {
    && (s != [] ==> !IsSpace(s[0]) && !IsSpace(s[|s| - 1]))
    && (forall i :: 0 <= i < |s| ==> !IsUpper(s[i]) && s[i] != '.')
    && SingleSpaced(s)
  }

  lemma TimeTextSettled(s: string)
    requires Settled(s)
    ensures TimeText(s) == s
  {
    TrimUnchanged(s);
    LowerOf(s, s);
    RemoveDotsNone(s);
    SingleSpacedCollapse(s);
  }

  /** The time a clock match names, after the meridiem step and the range check. */
  function ClockTime(m: ClockMatch): Option<string>
    requires ValidClockMatch(m)
  {
    var h := Meridiem(DigitsValue(m.hour), m.period == Some("pm"), m.period == Some("am"));
    var minute := if m.minute.Some? then DigitsValue(m.minute.value) else 0;
    if 0 <= h <= 23 && minute <= 59 then Some(Pad2(h) + ":" + Pad2(minute)) else None
  }

  lemma DigitNotWord(w: string)
    requires w != [] && IsDigit(w[0])
    ensures w !in WORD_TO_NUM && w != "noon" && w != "midnight"
  {
  }

  lemma ClockHourMinuteOf(m: ClockMatch, gap: string)
    requires ValidClockMatch(m) && IsGap(gap)
    ensures var s := ClockText(m, gap);
      && s != "noon" && s != "midnight"
      && HourMinute(s) == Some((Meridiem(DigitsValue(m.hour), m.period == Some("pm"), m.period == Some("am")),
                               if m.minute.Some? then DigitsValue(m.minute.value) else 0))
  {
    var s := ClockText(m, gap);
    assert s[0] == m.hour[0];
    DigitNotWord(s);
    assert FirstToken(s)[0] == s[0];
    DigitNotWord(FirstToken(s));
    MatchClockComplete(m, gap);
  }

  /** A time expression that reads as the clock pattern is normalised by the
      digits it matched; the number words never get in the way. */
  lemma NormalizeClock(raw: string, m: ClockMatch, gap: string)
    requires ValidClockMatch(m) && IsGap(gap) && TimeText(raw) == ClockText(m, gap)
    ensures NormalizeTime(raw) == ClockTime(m)
  {
    ClockHourMinuteOf(m, gap);
  }

  lemma ClockPrefix(m: ClockMatch)
    requires ValidClockMatch(m)
    ensures var x := m.hour + MinutePart(m);
      x != [] && IsDigit(x[0]) && IsDigit(x[|x| - 1]) && forall i :: 0 <= i < |x| ==> IsDigit(x[i]) || x[i] == ':'
  {
  }

  lemma PeriodChars(m: ClockMatch, gap: string)
    requires ValidClockMatch(m) && (gap == "" || gap == " ")
    ensures var y := PeriodPart(m, gap);
      && (forall i :: 0 <= i < |y| ==> y[i] == ' ' || 'a' <= y[i] <= 'p')
      && (forall i :: 0 < i < |y| ==> y[i] != ' ')
      && (y != [] ==> y[|y| - 1] == 'm')
  {
  }

  lemma JoinSettled(x: string, y: string)
    requires x != [] && IsDigit(x[0]) && IsDigit(x[|x| - 1])
    requires forall i :: 0 <= i < |x| ==> IsDigit(x[i]) || x[i] == ':'
    requires forall i :: 0 <= i < |y| ==> y[i] == ' ' || 'a' <= y[i] <= 'p'
    requires forall i :: 0 < i < |y| ==> y[i] != ' '
    requires y != [] ==> y[|y| - 1] == 'm'
    ensures Settled(x + y)
  {
    var s := x + y;
    forall i | 0 <= i < |s|
      ensures !IsUpper(s[i]) && s[i] != '.'
      ensures IsSpace(s[i]) ==> s[i] == ' ' && (i + 1 < |s| ==> !IsSpace(s[i + 1]))
    {
      if i < |x| {
        assert s[i] == x[i];
      } else {
        assert s[i] == y[i - |x|];
        if i + 1 < |s| {
          assert s[i + 1] == y[i + 1 - |x|];
        }
      }
    }
    assert s[|s| - 1] == if y == [] then x[|x| - 1] else y[|y| - 1];
  }

  /** The canonical spelling of a clock match: at most one space before the period. */
  lemma ClockTextSettled(m: ClockMatch, gap: string)
    requires ValidClockMatch(m) && (gap == "" || gap == " ")
    ensures Settled(ClockText(m, gap))
  {
    ClockPrefix(m);
    PeriodChars(m, gap);
    JoinSettled(m.hour + MinutePart(m), PeriodPart(m, gap));
    assert ClockText(m, gap) == (m.hour + MinutePart(m)) + PeriodPart(m, gap);
  }

  /** A time in its canonical spoken form, "h[:mm][ am|pm]", is normalised
      by the digits it spells. */
  lemma NormalizeClockText(m: ClockMatch, gap: string)
    requires ValidClockMatch(m) && (gap == "" || gap == " ")
    ensures NormalizeTime(ClockText(m, gap)) == ClockTime(m)
  {
    ClockTextSettled(m, gap);
    TimeTextSettled(ClockText(m, gap));
    NormalizeClock(ClockText(m, gap), m, gap);
  }

  lemma ClockTextFixed(t: string)
    requires IsHHMM(t)
    ensures TimeText(t) == t
  {
    JoinSettled(t, []);
    assert t + [] == t;
    TimeTextSettled(t);
  }

  lemma TwoDigits(d: string)
    requires |d| == 2 && IsDigit(d[0]) && IsDigit(d[1])
    ensures DigitsValue(d) == 10 * DigitValue(d[0]) + DigitValue(d[1])
  {
    var a := d[..1];
    assert d[..|d| - 1] == a;
    assert a[..|a| - 1] == [];
    assert DigitsValue(a) == DigitValue(d[0]);
  }

  lemma Pad2Of(d: string)
    requires |d| == 2 && IsDigit(d[0]) && IsDigit(d[1])
    ensures 10 * DigitValue(d[0]) + DigitValue(d[1]) < 100
    ensures Pad2(10 * DigitValue(d[0]) + DigitValue(d[1])) == d
  {
    var n := 10 * DigitValue(d[0]) + DigitValue(d[1]);
    assert n / 10 == DigitValue(d[0]) && n % 10 == DigitValue(d[1]);
  }

  lemma ClockMatchOf(t: string)
    requires IsHHMM(t)
    ensures MatchClock(t) == Some(ClockMatch(t[..2], Some(t[3..5]), None))
  {
    var m := ClockMatch(t[..2], Some(t[3..5]), None);
    assert ValidClockMatch(m);
    assert ClockText(m, "") == t;
    MatchClockComplete(m, "");
  }

  lemma ClockHourMinute(t: string)
    requires IsHHMM(t)
    ensures HourMinute(t) == Some((HoursOf(t), MinutesOf(t)))
  {
    FirstTokenNoSpace(t);
    assert t !in WORD_TO_NUM by {
      assert IsDigit(t[0]);
    }
    ClockMatchOf(t);
    TwoDigits(t[..2]);
    TwoDigits(t[3..5]);
  }

  lemma ClockPad(t: string)
    requires IsHHMM(t)
    ensures HoursOf(t) < 100 && MinutesOf(t) < 100
    ensures Pad2(HoursOf(t)) + ":" + Pad2(MinutesOf(t)) == t
  {
    Pad2Of(t[..2]);
    Pad2Of(t[3..5]);
    assert t == t[..2] + ":" + t[3..5];
  }

  /** normalizeTime reads a zero-padded 24-hour time back unchanged. */
  lemma ClockFixed(t: string)
    requires IsClock(t)
    ensures NormalizeTime(t) == Some(t)
  {
    ClockTextFixed(t);
    ClockHourMinute(t);
    ClockPad(t);
  }

  /** Normalising a normalised time changes nothing. */
  lemma NormalizeIdempotent(raw: string)
    requires NormalizeTime(raw).Some?
    ensures NormalizeTime(NormalizeTime(raw).value) == NormalizeTime(raw)
  {
    ClockFixed(NormalizeTime(raw).value);
  }
}
