/** The text form `strftime('%Y-%m-%d %H:%M:%S')` gives a UTC date and time:
    19 characters, every field zero-padded to a fixed width. */
module TimestampText {
  import opened Wrappers
  import opened CivilTime

  /** Number of characters in `YYYY-MM-DD HH:MM:SS`. */
  const TimestampWidth: int := 19

  predicate IsDigit(c: char) {
    '0' <= c <= '9'
  }

  function Digit(n: int): (c: char)
    requires 0 <= n <= 9
    ensures IsDigit(c) && DigitValue(c) == n
  {
    (n + '0' as int) as char
  }

  function DigitValue(c: char): int
    requires IsDigit(c)
  {
    c as int - '0' as int
  }

  /** What sits at position `i` of the layout: a separator or a digit. */
  predicate LayoutAt(t: string, i: int)
    requires 0 <= i < |t|
  {
    if i == 4 || i == 7 then t[i] == '-'
    else if i == 10 then t[i] == ' '
    else if i == 13 || i == 16 then t[i] == ':'
    else IsDigit(t[i])
  }

  /** `t` has the shape `DDDD-DD-DD DD:DD:DD`, D a decimal digit. */
  predicate IsTimestampLayout(t: string) {
    |t| == TimestampWidth && forall i | 0 <= i < |t| :: LayoutAt(t, i)
  }

  /** A date and time that renders in four year digits. */
  predicate Renderable(dt: DateTime) {
    Valid(dt) && MinYear <= dt.year <= MaxYear
  }

  /** `%Y-%m-%d %H:%M:%S`, the year zero-padded to four digits. */
  function Format(dt: DateTime): (t: string)
    requires Renderable(dt)
    ensures IsTimestampLayout(t)
  {
    var t := [Digit(dt.year / 1000), Digit(dt.year / 100 % 10), Digit(dt.year / 10 % 10), Digit(dt.year % 10), '-',
              Digit(dt.month / 10), Digit(dt.month % 10), '-',
              Digit(dt.day / 10), Digit(dt.day % 10), ' ',
              Digit(dt.hour / 10), Digit(dt.hour % 10), ':',
              Digit(dt.minute / 10), Digit(dt.minute % 10), ':',
              Digit(dt.second / 10), Digit(dt.second % 10)];
    assert forall i | 0 <= i < |t| :: LayoutAt(t, i);
    t
  }

  /** The number written by the two digits at positions `i` and `i + 1`. */
  function TwoDigits(t: string, i: int): int
    requires 0 <= i && i + 1 < |t| && IsDigit(t[i]) && IsDigit(t[i + 1])
  {
    10 * DigitValue(t[i]) + DigitValue(t[i + 1])
  }

  /** Reads the fields back out of text in the timestamp layout; any other text is refused. */
  function Parse(t: string): (r: Option<DateTime>)
    ensures r.Some? <==> IsTimestampLayout(t)
  {
    if IsTimestampLayout(t) then
      assert LayoutAt(t, 0) && LayoutAt(t, 1) && LayoutAt(t, 2) && LayoutAt(t, 3);
      assert LayoutAt(t, 5) && LayoutAt(t, 6) && LayoutAt(t, 8) && LayoutAt(t, 9);
      assert LayoutAt(t, 11) && LayoutAt(t, 12) && LayoutAt(t, 14) && LayoutAt(t, 15);
      assert LayoutAt(t, 17) && LayoutAt(t, 18);
      Some(DateTime(100 * TwoDigits(t, 0) + TwoDigits(t, 2), TwoDigits(t, 5), TwoDigits(t, 8),
                    TwoDigits(t, 11), TwoDigits(t, 14), TwoDigits(t, 17)))
    else
      None
  }

  /** A digit rewritten from its value is the same digit. */
  lemma DigitOfValue(c: char)
    requires IsDigit(c)
    ensures Digit(DigitValue(c)) == c
  {
  }

  /** Two positions holding the digits of `n` read back as `n`. */
  lemma ReadTwo(t: string, i: int, n: int)
    requires 0 <= i && i + 1 < |t| && IsDigit(t[i]) && IsDigit(t[i + 1])
    requires 0 <= n <= 99 && t[i] == Digit(n / 10) && t[i + 1] == Digit(n % 10)
    ensures TwoDigits(t, i) == n
  {
  }

  lemma JoinYear(y: int)
    requires 0 <= y <= 9999
    ensures 0 <= y / 100 <= 99 && y / 100 / 10 == y / 1000
    ensures y % 100 / 10 == y / 10 % 10 && y % 100 % 10 == y % 10
    ensures 100 * (y / 100) + y % 100 == y
  {
  }

  /** The year's four digits read back as the year. */
  lemma ReadYear(dt: DateTime)
    requires Renderable(dt)
    ensures 100 * TwoDigits(Format(dt), 0) + TwoDigits(Format(dt), 2) == dt.year
  {
    var t := Format(dt);
    var y := dt.year;
    JoinYear(y);
    assert t[0] == Digit(y / 100 / 10) && t[1] == Digit(y / 100 % 10);
    assert t[2] == Digit(y % 100 / 10) && t[3] == Digit(y % 100 % 10);
    ReadTwo(t, 0, y / 100);
    ReadTwo(t, 2, y % 100);
  }

  /** The two-digit fields read back as the month, day, hour, minute and second. */
  lemma ReadFields(dt: DateTime)
    requires Renderable(dt)
    ensures TwoDigits(Format(dt), 5) == dt.month && TwoDigits(Format(dt), 8) == dt.day
    ensures TwoDigits(Format(dt), 11) == dt.hour && TwoDigits(Format(dt), 14) == dt.minute
    ensures TwoDigits(Format(dt), 17) == dt.second
  {
    var t := Format(dt);
    ReadTwo(t, 5, dt.month);
    ReadTwo(t, 8, dt.day);
    ReadTwo(t, 11, dt.hour);
    ReadTwo(t, 14, dt.minute);
    ReadTwo(t, 17, dt.second);
  }

  /** Reading the rendered text gives back the value rendered. */
  lemma ParseFormat(dt: DateTime)
    requires Renderable(dt)
    ensures Parse(Format(dt)) == Some(dt)
  {
    ReadYear(dt);
    ReadFields(dt);
  }

  /** Two digits rewritten from the number they read as are the same two digits. */
  lemma WriteTwo(t: string, i: int)
    requires 0 <= i && i + 1 < |t| && IsDigit(t[i]) && IsDigit(t[i + 1])
    ensures 0 <= TwoDigits(t, i) <= 99
    ensures Digit(TwoDigits(t, i) / 10) == t[i] && Digit(TwoDigits(t, i) % 10) == t[i + 1]
  {
    DigitOfValue(t[i]);
    DigitOfValue(t[i + 1]);
  }

  lemma SplitYear(a: int, b: int, c: int, d: int)
    requires 0 <= a <= 9 && 0 <= b <= 9 && 0 <= c <= 9 && 0 <= d <= 9
    ensures var y := 100 * (10 * a + b) + (10 * c + d);
      y / 1000 == a && y / 100 % 10 == b && y / 10 % 10 == c && y % 10 == d
  {
  }

  /** Four year digits rewritten from the year they read as are the same four digits. */
  lemma WriteYear(t: string)
    requires |t| >= 4 && IsDigit(t[0]) && IsDigit(t[1]) && IsDigit(t[2]) && IsDigit(t[3])
    ensures var y := 100 * TwoDigits(t, 0) + TwoDigits(t, 2);
      0 <= y <= 9999
      && Digit(y / 1000) == t[0] && Digit(y / 100 % 10) == t[1]
      && Digit(y / 10 % 10) == t[2] && Digit(y % 10) == t[3]
  {
    SplitYear(DigitValue(t[0]), DigitValue(t[1]), DigitValue(t[2]), DigitValue(t[3]));
    DigitOfValue(t[0]);
    DigitOfValue(t[1]);
    DigitOfValue(t[2]);
    DigitOfValue(t[3]);
  }

  /** Text in the layout whose fields make a renderable value is exactly the rendering of that value. */
  lemma FormatParse(t: string)
    requires Parse(t).Some? && Renderable(Parse(t).value)
    ensures Format(Parse(t).value) == t
  {
    var f := Format(Parse(t).value);
    assert LayoutAt(t, 0) && LayoutAt(t, 1) && LayoutAt(t, 2) && LayoutAt(t, 3);
    assert LayoutAt(t, 5) && LayoutAt(t, 6) && LayoutAt(t, 8) && LayoutAt(t, 9);
    assert LayoutAt(t, 11) && LayoutAt(t, 12) && LayoutAt(t, 14) && LayoutAt(t, 15);
    assert LayoutAt(t, 17) && LayoutAt(t, 18);
    assert LayoutAt(t, 4) && LayoutAt(t, 7) && LayoutAt(t, 10) && LayoutAt(t, 13) && LayoutAt(t, 16);
    WriteYear(t);
    WriteTwo(t, 5);
    WriteTwo(t, 8);
    WriteTwo(t, 11);
    WriteTwo(t, 14);
    WriteTwo(t, 17);
    assert f[..4] == t[..4];
    assert f[4..10] == t[4..10];
    assert f[10..] == t[10..];
    assert f == f[..4] + f[4..10] + f[10..];
    assert t == t[..4] + t[4..10] + t[10..];
  }

  /** Two renderable values render alike only when they are equal. */
  lemma FormatInjective(a: DateTime, b: DateTime)
    requires Renderable(a) && Renderable(b)
    ensures Format(a) == Format(b) <==> a == b
  {
    if Format(a) == Format(b) {
      ParseFormat(a);
      ParseFormat(b);
    }
  }
}
