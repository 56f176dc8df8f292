/** normalizeTime as written looks the first word up with `WORD_TO_NUM[word]`
    on a plain JavaScript object, so the two lower-case names every object
    inherits from Object.prototype, "constructor" and "__proto__", are found
    as well. What is found is not a number: every comparison with it is
    false, so the range check lets it through and its string form ends up
    where the hour should be. The rest of the model uses the intended
    lookup, VoiceParsing.NormalizeTime, which only ever yields HH:MM. */
module Findings {
  import opened Text
  import opened Wrappers
  import opened VoiceParsing
  import opened TimeProps

  /** The inherited members a lower-cased word can name, with the text
      `String(value)` gives for each. */
  const INHERITED: map<string, string> := map[
    "constructor" := "function Object() { [native code] }",
    "__proto__" := "[object Object]"]

  /** normalizeTime as written: an inherited name passes for a number word
      whose hour is its string form, and minute 0 is padded to "00". */
  function NormalizeTimeAsWritten(raw: string): Option<string>
  {
    var word := FirstToken(TimeText(raw));
    if word in INHERITED then Some(INHERITED[word] + ":00") else NormalizeTime(raw)
  }

  /** The intended lookup rejects an inherited name: it is neither a number
      word, nor a clock time, nor "noon" or "midnight". */
  lemma InheritedRejected(raw: string)
    requires FirstToken(TimeText(raw)) in INHERITED
    ensures NormalizeTime(raw) == None
  {
    var s := TimeText(raw);
    var word := FirstToken(s);
    assert word[0] == s[0];
    assert word !in WORD_TO_NUM;
  }

  /** As written, normalizeTime differs from the intended one exactly on the
      inherited names, and there it hands back something that is not a time. */
  lemma AsWrittenDiffers(raw: string)
    ensures NormalizeTimeAsWritten(raw) != NormalizeTime(raw) <==> FirstToken(TimeText(raw)) in INHERITED
    ensures FirstToken(TimeText(raw)) in INHERITED ==>
      NormalizeTimeAsWritten(raw).Some? && !IsClock(NormalizeTimeAsWritten(raw).value)
  {
    if FirstToken(TimeText(raw)) in INHERITED {
      InheritedRejected(raw);
    }
  }

  lemma ConstructorText(a: string, b: string)
    requires a == INHERITED["constructor"] && b == ":00"
    ensures a + b == "function Object() { [native code] }:00"
  {
  }

  lemma ConstructorWord(raw: string)
    requires raw == "constructor"
    ensures FirstToken(TimeText(raw)) == raw
  {
    assert Settled(raw);
    TimeTextSettled(raw);
    FirstTokenNoSpace(raw);
  }

  /** The transcript time "constructor" comes back as a time of
      "function Object() { [native code] }:00". */
  lemma ConstructorCounterexample(raw: string)
    requires raw == "constructor"
    ensures NormalizeTimeAsWritten(raw) == Some("function Object() { [native code] }:00")
    ensures NormalizeTime(raw) == None
  {
    ConstructorWord(raw);
    InheritedRejected(raw);
    ConstructorText(INHERITED[raw], ":00");
  }
}
