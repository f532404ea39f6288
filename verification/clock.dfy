/**
 * Local wall-clock fields of a millisecond timestamp and the `H:MM AM|PM` rendering shared by
 * the chat window and the contact list. The local time zone is a fixed offset in minutes east of
 * UTC (daylight-saving changes are not modelled).
 */
module Clock {

  import opened Common

  const MsPerMinute: nat := 60000
  const MinutesPerDay: nat := 1440

  /** Minutes since the epoch on the local wall clock. */
  function LocalMinutes(t: nat, offset: int): int
  {
    t / MsPerMinute + offset
  }

  /** `Date.prototype.getHours`. */
  function HourOf(t: nat, offset: int): (h: nat)
    ensures h < 24
  {
    (LocalMinutes(t, offset) % MinutesPerDay) / 60
  }

  /** `Date.prototype.getMinutes`. */
  function MinuteOf(t: nat, offset: int): (m: nat)
    ensures m < 60
  {
    LocalMinutes(t, offset) % 60
  }

  /** The local calendar day named by `Date.prototype.toDateString`, as a day count since the epoch. */
  function DayOf(t: nat, offset: int): (d: int)
    ensures d * MinutesPerDay <= LocalMinutes(t, offset) < d * MinutesPerDay + MinutesPerDay
  {
    LocalMinutes(t, offset) / MinutesPerDay
  }

  /** Day, hour and minute together pin down the local minute: the three fields are a faithful decomposition. */
  lemma LocalClockDecomposes(t: nat, offset: int)
    ensures DayOf(t, offset) * MinutesPerDay + HourOf(t, offset) * 60 + MinuteOf(t, offset) == LocalMinutes(t, offset)
  {
    var x := LocalMinutes(t, offset);
    var r := x % MinutesPerDay;
    assert x == (x / MinutesPerDay) * MinutesPerDay + r;
    assert r == (r / 60) * 60 + r % 60;
    DivModUnique(x, (x / MinutesPerDay) * 24 + r / 60, 60, r % 60);
  }

  /** Euclidean division has exactly one quotient and remainder. */
  lemma DivModUnique(x: int, q: int, d: int, b: int)
    requires d > 0 && 0 <= b < d && x == q * d + b
    ensures x / d == q && x % d == b
  {
    var q', b' := x / d, x % d;
    assert (q - q') * d == b' - b;
    MulCancel(q - q', 1, d);
    MulCancel(-1, q - q', d);
  }

  /** Multiplying by a positive number preserves strict order, read backwards. */
  lemma MulCancel(x: int, y: int, d: int)
    requires d > 0 && x * d < y * d
    ensures x < y
  {
    assert (y - x) * d == y * d - x * d;
  }

  /** A later timestamp never falls on an earlier local day. */
  lemma DayOfMonotone(t1: nat, t2: nat, offset: int)
    requires t1 <= t2
    ensures DayOf(t1, offset) <= DayOf(t2, offset)
  {
    DivMonotone(t1, t2, MsPerMinute);
    DivMonotone(LocalMinutes(t1, offset), LocalMinutes(t2, offset), MinutesPerDay);
  }

  lemma DivMonotone(a: int, b: int, d: int)
    requires a <= b && d > 0
    ensures a / d <= b / d
  {
    var qa, qb := a / d, b / d;
    assert qa * d <= a && b < qb * d + d;
    assert qb * d + d == (qb + 1) * d;
    MulCancel(qa, qb + 1, d);
  }

  predicate IsDigit(c: char)
  {
    '0' <= c <= '9'
  }

  predicate AllDigits(s: string)
  {
    forall i :: 0 <= i < |s| ==> IsDigit(s[i])
  }

  function Digit(d: nat): (c: char)
    requires d < 10
    ensures IsDigit(c) && c as int - '0' as int == d
  {
    ('0' as int + d) as char
  }

  /** The decimal rendering of a number, as a template literal produces it. */
  function ShowNat(n: nat): (s: string)
    ensures s != [] && AllDigits(s)
    ensures n < 10 <==> |s| == 1
    ensures 10 <= n < 100 ==> |s| == 2
    ensures s[0] == '0' <==> n == 0
  {
    if n < 10 then [Digit(n)] else ShowNat(n / 10) + [Digit(n % 10)]
  }

  /** The value of a string of decimal digits. */
  function ReadNat(s: string): nat
    requires AllDigits(s)
  {
    if s == [] then 0 else ReadNat(s[..|s| - 1]) * 10 + (s[|s| - 1] as int - '0' as int)
  }

  lemma {:induction false} ReadShowNat(n: nat)
    ensures ReadNat(ShowNat(n)) == n
  {
    if n >= 10 {
      var s := ShowNat(n);
      assert s[..|s| - 1] == ShowNat(n / 10);
      ReadShowNat(n / 10);
    }
  }

  /** Digits without a leading zero have a positive value. */
  lemma {:induction false} ReadNatPositive(s: string)
    requires s != [] && AllDigits(s) && s[0] != '0'
    ensures ReadNat(s) >= 1
  {
    if |s| > 1 {
      var init := s[..|s| - 1];
      assert init[0] == s[0];
      ReadNatPositive(init);
    }
  }

  /** Digits without a leading zero are the decimal rendering of their value: the rendering is the only one. */
  lemma {:induction false} ShowReadNat(s: string)
    requires s != [] && AllDigits(s) && s[0] != '0'
    ensures ShowNat(ReadNat(s)) == s
  {
    var init := s[..|s| - 1];
    var d := s[|s| - 1] as int - '0' as int;
    if |s| == 1 {
      assert init == [];
      assert Digit(d) == s[0];
    } else {
      assert init[0] == s[0];
      ShowReadNat(init);
      ReadNatPositive(init);
      var n := ReadNat(s);
      DivModUnique(n, ReadNat(init), 10, d);
      assert Digit(d) == s[|s| - 1];
      assert s == init + [s[|s| - 1]];
    }
  }

  /** Two two-digit strings with the same value are the same string. */
  lemma TwoDigitsDetermined(a: string, b: string)
    requires |a| == 2 && |b| == 2 && AllDigits(a) && AllDigits(b) && ReadNat(a) == ReadNat(b)
    ensures a == b
  {
    assert a[..1][..0] == [] && b[..1][..0] == [];
    var a0, a1 := a[0] as int - '0' as int, a[1] as int - '0' as int;
    var b0, b1 := b[0] as int - '0' as int, b[1] as int - '0' as int;
    assert a[..|a| - 1] == a[..1] && a[..1][0] == a[0] && ReadNat(a[..1]) == a0;
    assert b[..|b| - 1] == b[..1] && b[..1][0] == b[0] && ReadNat(b[..1]) == b0;
    assert ReadNat(a) == a0 * 10 + a1;
    assert ReadNat(b) == b0 * 10 + b1;
    DivModUnique(ReadNat(a), a0, 10, a1);
    DivModUnique(ReadNat(a), b0, 10, b1);
    assert a[0] == b[0] && a[1] == b[1];
  }

  /** The twelve-hour clock hour: `hours % 12 || 12`. */
  function Hour12(h: nat): (r: nat)
    requires h < 24
    ensures 1 <= r <= 12
    ensures r % 12 == h % 12
  {
    if h % 12 == 0 then 12 else h % 12
  }

  function Meridiem(h: nat): (r: string)
    ensures r == "AM" <==> h < 12
    ensures r == "PM" <==> h >= 12
  {
    if h >= 12 then "PM" else "AM"
  }

  /** Minutes below ten get a leading zero. */
  function PadMinutes(m: nat): (r: string)
    requires m < 60
    ensures |r| == 2 && AllDigits(r)
    ensures ReadNat(r) == m
  {
    ReadShowNat(m);
    if m < 10 then
      var r := "0" + ShowNat(m);
      assert r[..1] == "0";
      r
    else ShowNat(m)
  }

  /** `formatTime`: the twelve-hour clock hour, a colon, two minute digits, a space and the meridiem. */
  function FormatTime(h: nat, m: nat): (r: string)
    requires h < 24 && m < 60
    ensures 7 <= |r| <= 8
    ensures r[|r| - 2..] == Meridiem(h)
    ensures r[|r| - 3] == ' ' && r[|r| - 6] == ':'
    ensures r[|r| - 5..|r| - 3] == PadMinutes(m)
    ensures r[..|r| - 6] == ShowNat(Hour12(h))
  {
    ShowNat(Hour12(h)) + ":" + PadMinutes(m) + " " + Meridiem(h)
  }

  /** Reads back the hour (0..23) and minute of an `H:MM AM|PM` string; the hour has no leading zero. */
  function ParseTime(s: string): Option<(nat, nat)>
  {
    if |s| < 7 || s[|s| - 3] != ' ' || s[|s| - 6] != ':' then None
    else
      var hourText := s[..|s| - 6];
      var minuteText := s[|s| - 5..|s| - 3];
      var suffix := s[|s| - 2..];
      if !AllDigits(hourText) || hourText[0] == '0' || !AllDigits(minuteText) || (suffix != "AM" && suffix != "PM") then None
      else
        var h12 := ReadNat(hourText);
        var m := ReadNat(minuteText);
        if h12 < 1 || h12 > 12 || m >= 60 then None
        else if suffix == "AM" then Some((if h12 == 12 then 0 else h12, m))
        else Some((if h12 == 12 then 12 else h12 + 12, m))
  }

  /** The rendering loses nothing: the hour and minute can be read back from it. */
  lemma FormatTimeRoundTrip(h: nat, m: nat)
    requires h < 24 && m < 60
    ensures ParseTime(FormatTime(h, m)) == Some((h, m))
  {
    ReadShowNat(Hour12(h));
  }

  /** Only the rendering of an hour and minute reads back as them, so a read-back pins down the text. */
  lemma ParseTimeDeterminesText(s: string, h: nat, m: nat)
    requires ParseTime(s) == Some((h, m))
    ensures h < 24 && m < 60 && s == FormatTime(h, m)
  {
    var hourText := s[..|s| - 6];
    var minuteText := s[|s| - 5..|s| - 3];
    var suffix := s[|s| - 2..];
    ShowReadNat(hourText);
    assert Hour12(h) == ReadNat(hourText);
    assert Meridiem(h) == suffix;
    TwoDigitsDetermined(minuteText, PadMinutes(m));
    assert s == hourText + ":" + minuteText + " " + suffix;
  }

  /** Local time of day of a timestamp, rendered. */
  function FormatStamp(t: nat, offset: int): (r: string)
    ensures ParseTime(r) == Some((HourOf(t, offset), MinuteOf(t, offset)))
  {
    FormatTimeRoundTrip(HourOf(t, offset), MinuteOf(t, offset));
    FormatTime(HourOf(t, offset), MinuteOf(t, offset))
  }
}
