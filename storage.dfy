/** The stored time-log record (src/utils/storage.ts). */
module Storage {
  import opened Text

  /** The closed set of categories a log can carry. */
  datatype Category = Self | Routine | Faith | Work | Family
  {
    /** The string the record stores for this category. */
    function Name(): string
    {
      match this
      case Self => "self"
      case Routine => "routine"
      case Faith => "faith"
      case Work => "work"
      case Family => "family"
    }
  }

  /** A wall-clock time as the store keeps it: two digits, a colon, two digits. */
  predicate IsHHMM(t: string)
  {
    |t| == 5 && IsDigit(t[0]) && IsDigit(t[1]) && t[2] == ':' && IsDigit(t[3]) && IsDigit(t[4])
  }

  type HHMM = t: string | IsHHMM(t) witness "00:00"

  function DigitValue(c: char): nat
    requires IsDigit(c)
  {
    c as int - '0' as int
  }

  /** The number before the colon of an HH:MM string. */
  function HoursOf(t: HHMM): nat
  {
    10 * DigitValue(t[0]) + DigitValue(t[1])
  }

  /** The number after the colon of an HH:MM string. */
  function MinutesOf(t: HHMM): nat
  {
    10 * DigitValue(t[3]) + DigitValue(t[4])
  }

  /** One logged interval. `date` is a YYYY-MM-DD string. */
  datatype TimeLog = TimeLog(
    id: string,
    date: string,
    startTime: HHMM,
    endTime: HHMM,
    category: Category,
    subCategory: string,
    description: string)
}
