/**
 * PlayerControls::formatTime: a number of seconds as "hh:mm:ss". The fields
 * come from C++ integer division and remainder, which truncate toward zero,
 * and each is written in decimal, left-padded with '0' to two characters.
 */
module TimeFormat {
  import opened Values

  /** C++ `/` on int with a positive divisor: the quotient truncated toward zero. */
  function CDiv(a: int, b: int): int
    requires b > 0
  {
    if a >= 0 then a / b else -((-a) / b)
  }

  /** C++ `%` on int with a positive divisor: the remainder takes the sign of `a`. */
  function CMod(a: int, b: int): (r: int)
    requires b > 0
    ensures a == b * CDiv(a, b) + r
    ensures a >= 0 ==> 0 <= r < b
    ensures a < 0 ==> -b < r <= 0
  {
    a - b * CDiv(a, b)
  }

  datatype Clock = Clock(hours: int, minutes: int, secs: int)

  /** The three fields formatTime computes. */
  function Split(total: Int32): Clock
  {
    var t := total as int;
    Clock(CDiv(t, 3600), CDiv(CMod(t, 3600), 60), CMod(t, 60))
  }

  /**
   * The fields add back up to the total, for every input; minutes and seconds
   * lie in 0..59 for a non-negative total and in -59..0 for a negative one.
   */
  lemma SplitFields(total: Int32)
    ensures var c := Split(total);
      c.hours * 3600 + c.minutes * 60 + c.secs == total as int &&
      (total >= 0 ==> c.hours >= 0 && 0 <= c.minutes < 60 && 0 <= c.secs < 60) &&
      (total < 0 ==> c.hours <= 0 && -60 < c.minutes <= 0 && -60 < c.secs <= 0)
  {
    var t := total as int;
    var r := CMod(t, 3600);
    var m := CDiv(r, 60);
    var s := CMod(r, 60);
    // t = 3600 h + r = 3600 h + 60 m + s, and s is also t's remainder by 60
    assert t == 3600 * CDiv(t, 3600) + r;
    assert r == 60 * m + s;
    var q := 60 * CDiv(t, 3600) + m;
    assert t == 60 * q + s;
    if t >= 0 {
      assert 0 <= r < 3600 && 0 <= s < 60;
      assert t / 60 == q;
    } else {
      assert -3600 < r <= 0 && -60 < s <= 0;
      assert (-t) / 60 == -q;
    }
  }

  /** QString::arg(n, 2, 10, '0'): the decimal text, left-padded with '0' to two characters. */
  function Pad2(s: string): (r: string)
    ensures |r| == if |s| < 2 then 2 else |s|
    ensures |s| < 2 ==> r == seq(2 - |s|, _ => '0') + s
    ensures |s| >= 2 ==> r == s
  {
    if |s| == 0 then "00" else if |s| == 1 then ['0'] + s else s
  }

  /** formatTime, for a total already truncated to whole seconds. */
  function FormatTime(total: Int32): (r: string)
    ensures |r| >= 8
  {
    var c := Split(total);
    Pad2(Decimal(c.hours)) + ":" + Pad2(Decimal(c.minutes)) + ":" + Pad2(Decimal(c.secs))
  }

  /** A two-digit field, read back. */
  function TwoDigits(s: string): int
    requires |s| == 2
  {
    10 * (s[0] as int - 48) + (s[1] as int - 48)
  }

  /** "hh:mm:ss" read back to seconds. */
  function ParseTime(s: string): int
    requires |s| == 8
  {
    3600 * TwoDigits(s[0..2]) + 60 * TwoDigits(s[3..5]) + TwoDigits(s[6..8])
  }

  /** A field below 100 is written as exactly two digits. */
  lemma PadTwoDigits(n: int)
    requires 0 <= n < 100
    ensures Pad2(Decimal(n)) == [(48 + n / 10) as char, (48 + n % 10) as char]
    ensures TwoDigits(Pad2(Decimal(n))) == n
  {
    if n >= 10 {
      assert Decimal(n / 10) == [(48 + n / 10) as char];
    }
  }

  /**
   * Below 100 hours the text is exactly eight characters, "hh:mm:ss", and
   * reads back to the total.
   */
  lemma FormatTimeRoundTrip(total: Int32)
    requires 0 <= total < 360000
    ensures |FormatTime(total)| == 8
    ensures FormatTime(total)[2] == ':' && FormatTime(total)[5] == ':'
    ensures ParseTime(FormatTime(total)) == total as int
  {
    var c := Split(total);
    SplitFields(total);
    assert c.hours < 100;
    PadTwoDigits(c.hours);
    PadTwoDigits(c.minutes);
    PadTwoDigits(c.secs);
    var s := FormatTime(total);
    assert s[0..2] == Pad2(Decimal(c.hours));
    assert s[3..5] == Pad2(Decimal(c.minutes));
    assert s[6..8] == Pad2(Decimal(c.secs));
  }
}
