/**
 * The export timestamp: `datetime.now().strftime('%Y%m%d-%H%M%S')`.
 * The clock is not modelled; the broken-down local time is a parameter.
 */
module Timestamp {
  import opened Wrappers
  import opened Text

  /** The fields of a Python `datetime` that the format uses. */
  datatype DateTime = DateTime(year: nat, month: nat, day: nat, hour: nat, minute: nat, second: nat)

  /**
   * The ranges of a `datetime` (no leap second), with the year restricted to
   * four digits, where `%Y` is zero-padded alike on every platform.
   */
  predicate Valid(t: DateTime) {
    1000 <= t.year <= 9999 && 1 <= t.month <= 12 && 1 <= t.day <= 31 &&
    t.hour < 24 && t.minute < 60 && t.second < 60
  }

  /** `n` zero-padded to two digits (`%m`, `%d`, `%H`, `%M`, `%S`). */
  function Pad2(n: nat): (s: string)
    requires n < 100
    ensures |s| == 2 && AllDigits(s)
    ensures 10 * DigitValue(s[0]) + DigitValue(s[1]) == n
  {
    [DigitChar(n / 10), DigitChar(n % 10)]
  }

  /** `n` zero-padded to four digits (`%Y`). */
  function Pad4(n: nat): (s: string)
    requires n < 10000
    ensures |s| == 4 && AllDigits(s)
    ensures 100 * (10 * DigitValue(s[0]) + DigitValue(s[1])) + 10 * DigitValue(s[2]) + DigitValue(s[3]) == n
  {
    Pad2(n / 100) + Pad2(n % 100)
  }

  /** `YYYYMMDD-HHMMSS`: fifteen characters, a dash at index 8, digits elsewhere. */
  function Format(t: DateTime): (s: string)
    requires Valid(t)
    ensures |s| == 15 && s[8] == '-'
    ensures forall i :: 0 <= i < 15 && i != 8 ==> IsDigit(s[i])
  {
    Pad4(t.year) + Pad2(t.month) + Pad2(t.day) + "-" + Pad2(t.hour) + Pad2(t.minute) + Pad2(t.second)
  }

  /** The value of the two digits of `s` at `i`. */
  function Digits2At(s: string, i: nat): (n: nat)
    requires i + 2 <= |s| && IsDigit(s[i]) && IsDigit(s[i + 1])
    ensures n < 100
  {
    10 * DigitValue(s[i]) + DigitValue(s[i + 1])
  }

  /** Reads a `YYYYMMDD-HHMMSS` text back; `None` for any text not of that form. */
  function Parse(s: string): (r: Option<DateTime>)
    ensures r.Some? ==> Valid(r.value)
  {
    if |s| == 15 && s[8] == '-' && (forall i :: 0 <= i < 15 && i != 8 ==> IsDigit(s[i])) then
      var t := DateTime(100 * Digits2At(s, 0) + Digits2At(s, 2), Digits2At(s, 4), Digits2At(s, 6),
                        Digits2At(s, 9), Digits2At(s, 11), Digits2At(s, 13));
      if Valid(t) then Some(t) else None
    else None
  }

  /** The timestamp text determines the time it was made from. */
  lemma ParseFormat(t: DateTime)
    requires Valid(t)
    ensures Parse(Format(t)) == Some(t)
  {
    var s := Format(t);
    var y, mo, d, h, mi, se := Pad4(t.year), Pad2(t.month), Pad2(t.day), Pad2(t.hour), Pad2(t.minute), Pad2(t.second);
    assert s[0..4] == y && s[4..6] == mo && s[6..8] == d;
    assert s[9..11] == h && s[11..13] == mi && s[13..15] == se;
  }

  /** Distinct times give distinct timestamps. */
  lemma FormatInjective(t: DateTime, u: DateTime)
    requires Valid(t) && Valid(u)
    ensures Format(t) == Format(u) <==> t == u
  {
    ParseFormat(t);
    ParseFormat(u);
  }
}
