/**
 `formatEventTime`: the first three letters of `DayOfWeek.name()`, a space, and
 `String.format("%02d:%02d", hour, minute)`. `name()` is the upper-case constant
 name, so the label reads `MON 20:00` (the comment above the source method shows
 `Mon 20:00`; the code is followed here). A parser is given as the formatter's
 inverse, to state that the label loses nothing of the slot.
 */
module Labels {
  import opened Wrappers
  import opened UtcTime

  /** `DayOfWeek.name()`: the constant's name, six to nine upper-case letters. */
  function Name(d: DayOfWeek): (n: string)
    ensures 6 <= |n| <= 9
    ensures forall i :: 0 <= i < |n| ==> 'A' <= n[i] <= 'Z'
  {
    match d
    case MONDAY => "MONDAY"
    case TUESDAY => "TUESDAY"
    case WEDNESDAY => "WEDNESDAY"
    case THURSDAY => "THURSDAY"
    case FRIDAY => "FRIDAY"
    case SATURDAY => "SATURDAY"
    case SUNDAY => "SUNDAY"
  }

  /** `name().substring(0, 3)`; every day name has at least three letters. */
  function Abbrev(d: DayOfWeek): (a: string)
    ensures |a| == 3
    ensures forall i :: 0 <= i < 3 ==> 'A' <= a[i] <= 'Z'
  {
    Name(d)[..3]
  }

  /** The day whose abbreviation is `a`, if any. */
  function DayOfAbbrev(a: string): Option<DayOfWeek>
  {
    if a == "MON" then Some(MONDAY)
    else if a == "TUE" then Some(TUESDAY)
    else if a == "WED" then Some(WEDNESDAY)
    else if a == "THU" then Some(THURSDAY)
    else if a == "FRI" then Some(FRIDAY)
    else if a == "SAT" then Some(SATURDAY)
    else if a == "SUN" then Some(SUNDAY)
    else None
  }

  /** The abbreviations are distinct: each names back its own day. */
  lemma AbbrevRoundTrip(d: DayOfWeek)
    ensures DayOfAbbrev(Abbrev(d)) == Some(d)
  {
    match d
    case MONDAY => assert Abbrev(d) == "MON";
    case TUESDAY => assert Abbrev(d) == "TUE";
    case WEDNESDAY => assert Abbrev(d) == "WED";
    case THURSDAY => assert Abbrev(d) == "THU";
    case FRIDAY => assert Abbrev(d) == "FRI";
    case SATURDAY => assert Abbrev(d) == "SAT";
    case SUNDAY => assert Abbrev(d) == "SUN";
  }

  predicate IsDigit(c: char)
  {
    '0' <= c <= '9'
  }

  function DigitChar(n: int): (c: char)
    requires 0 <= n < 10
    ensures IsDigit(c)
  {
    ('0' as int + n) as char
  }

  function DigitValue(c: char): int
    requires IsDigit(c)
  {
    c as int - '0' as int
  }

  /** `%02d` of a number below 100: two decimal digits, the first possibly a zero. */
  function Pad2(n: int): (s: string)
    requires 0 <= n < 100
    ensures |s| == 2 && IsDigit(s[0]) && IsDigit(s[1])
    ensures 10 * DigitValue(s[0]) + DigitValue(s[1]) == n
  {
    [DigitChar(n / 10), DigitChar(n % 10)]
  }

  /** The label of a slot. */
  function FormatSlot(s: Slot): (r: string)
    requires s.Valid()
  {
    Abbrev(s.day) + " " + Pad2(s.hour) + ":" + Pad2(s.minute)
  }

  /**
   `formatEventTime(eventTime)`: always nine characters, three upper-case
   letters, a space, two digits for an hour below 24, a colon and two digits
   for a minute below 60; and the label reads back as the instant's slot.
   */
  function FormatEventTime(ms: int): (r: string)
    ensures |r| == 9
    ensures forall i :: 0 <= i < 3 ==> 'A' <= r[i] <= 'Z'
    ensures r[3] == ' ' && r[6] == ':'
    ensures IsDigit(r[4]) && IsDigit(r[5]) && IsDigit(r[7]) && IsDigit(r[8])
    ensures 10 * DigitValue(r[4]) + DigitValue(r[5]) == HourAt(ms) < 24
    ensures 10 * DigitValue(r[7]) + DigitValue(r[8]) == MinuteAt(ms) < 60
    ensures DayOfAbbrev(r[..3]) == Some(DayOfWeekAt(ms))
  {
    AbbrevRoundTrip(DayOfWeekAt(ms));
    var r := FormatSlot(SlotAt(ms));
    assert r[..3] == Abbrev(DayOfWeekAt(ms));
    r
  }

  /** Reads a label of the form `DDD HH:MM` back into a slot. */
  function ParseLabel(s: string): Option<Slot>
  {
    if |s| == 9 && s[3] == ' ' && s[6] == ':'
       && IsDigit(s[4]) && IsDigit(s[5]) && IsDigit(s[7]) && IsDigit(s[8])
       && DayOfAbbrev(s[..3]).Some?
    then
      var slot := Slot(DayOfAbbrev(s[..3]).value,
                       10 * DigitValue(s[4]) + DigitValue(s[5]),
                       10 * DigitValue(s[7]) + DigitValue(s[8]));
      if slot.Valid() then Some(slot) else None
    else None
  }

  /** Parsing a formatted slot gives the slot back. */
  lemma ParseFormatSlot(s: Slot)
    requires s.Valid()
    ensures ParseLabel(FormatSlot(s)) == Some(s)
  {
    var r := FormatSlot(s);
    assert r[..3] == Abbrev(s.day);
    AbbrevRoundTrip(s.day);
  }

  /** A label that parses is exactly the formatted form of what it parses to. */
  lemma FormatParsedLabel(s: string)
    requires ParseLabel(s).Some?
    ensures ParseLabel(s).value.Valid()
    ensures FormatSlot(ParseLabel(s).value) == s
  {
    var slot := ParseLabel(s).value;
    var r := FormatSlot(slot);
    assert Abbrev(slot.day) == s[..3];
    assert r == s;
  }

  /** Two instants get the same label exactly when they share their UTC slot. */
  lemma SameLabelIffSameSlot(a: int, b: int)
    ensures FormatEventTime(a) == FormatEventTime(b) <==> SlotAt(a) == SlotAt(b)
  {
    ParseFormatSlot(SlotAt(a));
    ParseFormatSlot(SlotAt(b));
  }
}
