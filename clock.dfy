/** Calendar arithmetic standing in for JavaScript `Date`. An instant is a whole
    number of minutes since 1970-01-01 00:00 local time; day 0 was a Thursday. */
module Clock {

  const MinutesPerDay := 24 * 60

  function DayOf(t: int): int
  {
    t / MinutesPerDay
  }

  function MinuteOfDay(t: int): (m: int)
    ensures 0 <= m < MinutesPerDay
  {
    t % MinutesPerDay
  }

  /** `Date.getDay()`: 0 is Sunday, 6 is Saturday. */
  function Weekday(day: int): (w: int)
    ensures 0 <= w < 7
  {
    (day + 4) % 7
  }

  predicate IsWeekend(day: int)
  {
    Weekday(day) == 0 || Weekday(day) == 6
  }

  function Digit(n: int): char
    requires 0 <= n < 10
  {
    (48 + n) as char
  }

  /** `toTimeString().substring(0, 5)`: the zero-padded "HH:MM" of a minute of the day. */
  function Hhmm(m: int): (s: string)
    requires 0 <= m < MinutesPerDay
    ensures |s| == 5 && s[2] == ':'
  {
    var h, mm := m / 60, m % 60;
    [Digit(h / 10), Digit(h % 10), ':', Digit(mm / 10), Digit(mm % 10)]
  }

  /** Two minutes of the day render to the same "HH:MM" only if they are equal,
      so comparing rendered slots compares minutes. */
  lemma HhmmInjective(a: int, b: int)
    requires 0 <= a < MinutesPerDay && 0 <= b < MinutesPerDay
    requires Hhmm(a) == Hhmm(b)
    ensures a == b
  {
    var ha, ma, hb, mb := a / 60, a % 60, b / 60, b % 60;
    assert Hhmm(a)[0] == Hhmm(b)[0] && Hhmm(a)[1] == Hhmm(b)[1];
    assert Hhmm(a)[3] == Hhmm(b)[3] && Hhmm(a)[4] == Hhmm(b)[4];
    assert ha / 10 == hb / 10 && ha % 10 == hb % 10;
    assert ma / 10 == mb / 10 && ma % 10 == mb % 10;
    assert ha == hb && ma == mb;
  }

  /** The same, for all pairs of minutes at once. */
  lemma HhmmInjectiveAll()
    ensures forall a, b :: 0 <= a < MinutesPerDay && 0 <= b < MinutesPerDay && Hhmm(a) == Hhmm(b) ==> a == b
  {
    forall a, b | 0 <= a < MinutesPerDay && 0 <= b < MinutesPerDay && Hhmm(a) == Hhmm(b) ensures a == b {
      HhmmInjective(a, b);
    }
  }
}
