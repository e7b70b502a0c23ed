/**
 * The countdown shared by both trainers: the timer choice checked when a
 * session starts (1 to 120 minutes), and the display (`updateTimerDisplay`)
 * that shows the remaining seconds as "mm:ss" with a colour class warning
 * when little time is left.
 */
module Clock {
  import opened JsStrings
  import opened Wrappers

  /** At or below this many seconds the display is in the danger state. */
  const DangerThreshold := 60
  /** At or below this many seconds (and above the danger one) it warns. */
  const WarningThreshold := 180

  datatype Level = Normal | Warning | Danger

  /** The timer radio buttons of both trainers: no timer, or a number of minutes (None when not a number). */
  datatype TimerChoice = NoTimer | Timed(minutes: Option<int>)

  const MinMinutes := 1
  const MaxMinutes := 120

  /** Whether the timer choice passes a start check. */
  predicate AcceptsTimer(timer: TimerChoice) {
    match timer
    case NoTimer => true
    case Timed(minutes) => minutes.Some? && !(minutes.value < MinMinutes || minutes.value > MaxMinutes)
  }

  /** The display text: zero-padded minutes, a colon, zero-padded seconds. */
  function FormatClock(seconds: nat): (text: string)
  {
    PadStart2(NatToString(seconds / 60)) + ":" + PadStart2(NatToString(seconds % 60))
  }

  /** Reads a "mm:ss" text back: digits, a colon, exactly two digits; the inverse of FormatClock. */
  function ParseClock(text: string): Option<nat>
  {
    if |text| >= 3 && text[|text| - 3] == ':'
      && AllDigits(text[..|text| - 3]) && AllDigits(text[|text| - 2..])
    then Some(ParseNat(text[..|text| - 3]) * 60 + ParseNat(text[|text| - 2..]))
    else None
  }

  /** The colour class the display carries for the remaining time. */
  function ClockLevel(seconds: int): Level
  {
    if seconds <= DangerThreshold then Danger
    else if seconds <= WarningThreshold then Warning
    else Normal
  }

  function Severity(l: Level): nat {
    match l
    case Normal => 0
    case Warning => 1
    case Danger => 2
  }

  /**
   * The text always has exactly two digits of seconds after the only colon,
   * at least two digits of minutes before it, and reads back to the same
   * number of seconds.
   */
  lemma ClockRoundTrip(seconds: nat)
    ensures ParseClock(FormatClock(seconds)) == Some(seconds)
    ensures var text := FormatClock(seconds);
      |text| >= 5 && text[|text| - 3] == ':' && ':' !in text[..|text| - 3]
  {
    var m := NatToString(seconds / 60);
    var s := NatToString(seconds % 60);
    SmallNatDigits(seconds % 60);
    ParsePadded(m);
    ParsePadded(s);
    ParseNatToString(seconds / 60);
    ParseNatToString(seconds % 60);
    ClockParts(PadStart2(m), PadStart2(s));
    ClockShape(PadStart2(m), PadStart2(s));
  }

  lemma SmallNatDigits(n: nat)
    requires n < 100
    ensures |NatToString(n)| <= 2
  {
    if n >= 10 {
      assert NatToString(n) == NatToString(n / 10) + [DigitChar(n % 10)];
    }
  }

  lemma DigitsHaveNoColon(s: string)
    requires AllDigits(s)
    ensures ':' !in s
  {
  }

  lemma ClockParts(mm: string, ss: string)
    requires AllDigits(mm) && AllDigits(ss) && |ss| == 2
    ensures ParseClock(mm + ":" + ss) == Some(ParseNat(mm) * 60 + ParseNat(ss))
  {
    var text := mm + ":" + ss;
    assert text[..|text| - 3] == mm;
    assert text[|text| - 2..] == ss;
  }

  lemma ClockShape(mm: string, ss: string)
    requires AllDigits(mm) && |mm| >= 2 && |ss| == 2
    ensures var text := mm + ":" + ss;
      |text| >= 5 && text[|text| - 3] == ':' && ':' !in text[..|text| - 3]
  {
    DigitsHaveNoColon(mm);
    var text := mm + ":" + ss;
    assert text[..|text| - 3] == mm;
  }

  /** Less time left never means a milder warning. */
  lemma {:induction false} LevelMonotone(earlier: int, later: int)
    requires later <= earlier
    ensures Severity(ClockLevel(later)) >= Severity(ClockLevel(earlier))
    ensures ClockLevel(later) == Normal ==> ClockLevel(earlier) == Normal
  {
  }
}
