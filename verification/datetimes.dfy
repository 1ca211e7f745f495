/** Naive Gregorian date-times as Python's `datetime` handles them: validity of a date,
    adding 60 minutes with day/month/year rollover, and `isoformat()`. */
module DateTimes {
  import opened Wrappers
  import opened Text

  const MaxYear: int := 9999

  datatype DateTime = DateTime(year: int, month: int, day: int, hour: int, minute: int)

  predicate IsLeap(y: int) {
    y % 4 == 0 && (y % 100 != 0 || y % 400 == 0)
  }

  function DaysInMonth(y: int, m: int): (n: int)
    requires 1 <= m <= 12
    ensures 28 <= n <= 31
  {
    if m == 2 then (if IsLeap(y) then 29 else 28)
    else if m == 4 || m == 6 || m == 9 || m == 11 then 30
    else 31
  }

  /** The dates `datetime(year, month, day)` accepts without raising ValueError. */
  predicate ValidDate(y: int, m: int, d: int) {
    1 <= y <= MaxYear && 1 <= m <= 12 && 1 <= d <= DaysInMonth(y, m)
  }

  predicate ValidTime(h: int, mi: int) {
    0 <= h <= 23 && 0 <= mi <= 59
  }

  predicate Valid(dt: DateTime) {
    ValidDate(dt.year, dt.month, dt.day) && ValidTime(dt.hour, dt.minute)
  }

  /** Days from 0001-01-01 to the first of January of year `y`. */
  function DaysBeforeYear(y: int): int
    requires y >= 1
  {
    if y == 1 then 0 else DaysBeforeYear(y - 1) + DaysBeforeMonth(y - 1, 13)
  }

  /** Days from the first of January of year `y` to the first of month `m`. */
  function DaysBeforeMonth(y: int, m: int): int
    requires 1 <= m <= 13
  {
    if m == 1 then 0 else DaysBeforeMonth(y, m - 1) + DaysInMonth(y, m - 1)
  }

  /** Minutes elapsed since 0001-01-01 00:00: the timeline on which `timedelta` arithmetic works. */
  function ToMinutes(dt: DateTime): int
    requires Valid(dt)
  {
    ((DaysBeforeYear(dt.year) + DaysBeforeMonth(dt.year, dt.month) + dt.day - 1) * 24 + dt.hour) * 60 + dt.minute
  }

  /** `dt + timedelta(minutes=60)`, or None where Python raises OverflowError (past year 9999). */
  function AddHour(dt: DateTime): (r: Option<DateTime>)
    requires Valid(dt)
    ensures r.Some? ==> Valid(r.value) && ToMinutes(r.value) == ToMinutes(dt) + 60
    ensures r.None? <==> dt.year == MaxYear && dt.month == 12 && dt.day == 31 && dt.hour == 23
  {
    if dt.hour < 23 then Some(dt.(hour := dt.hour + 1))
    else if dt.day < DaysInMonth(dt.year, dt.month) then Some(dt.(day := dt.day + 1, hour := 0))
    else if dt.month < 12 then Some(dt.(month := dt.month + 1, day := 1, hour := 0))
    else if dt.year < MaxYear then
      Some(DateTime(dt.year + 1, 1, 1, 0, dt.minute))
    else None
  }

  /** `n` in decimal, left-padded with zeros to `width` digits (`%0*d`). */
  function ZeroPad(n: nat, width: nat): (r: string)
    ensures |r| >= width
    ensures forall c | c in r :: IsDigit(c)
  {
    var s := NatToString(n);
    if |s| >= width then s else Repeat('0', width - |s|) + s
  }

  function Repeat(c: char, k: nat): (r: string)
    ensures |r| == k && forall i | 0 <= i < k :: r[i] == c
  {
    if k == 0 then [] else [c] + Repeat(c, k - 1)
  }

  /** `datetime.isoformat()` of a naive value with zero seconds: `YYYY-MM-DDTHH:MM:00`. */
  function IsoFormat(dt: DateTime): (r: string)
    requires Valid(dt)
    ensures |r| == 19 && r[4] == '-' && r[7] == '-' && r[10] == 'T' && r[13] == ':' && r[16] == ':'
  {
    ZeroPadExact(dt.year, 4);
    ZeroPadExact(dt.month, 2);
    ZeroPadExact(dt.day, 2);
    ZeroPadExact(dt.hour, 2);
    ZeroPadExact(dt.minute, 2);
    ZeroPad(dt.year, 4) + "-" + ZeroPad(dt.month, 2) + "-" + ZeroPad(dt.day, 2) + "T"
    + ZeroPad(dt.hour, 2) + ":" + ZeroPad(dt.minute, 2) + ":00"
  }

  lemma {:induction false} NatToStringLength(n: nat, width: nat)
    requires n < Pow10(width) && width >= 1
    ensures |NatToString(n)| <= width
    decreases width
  {
    if n >= 10 {
      NatToStringLength(n / 10, width - 1);
    }
  }

  function Pow10(k: nat): nat {
    if k == 0 then 1 else 10 * Pow10(k - 1)
  }

  lemma ZeroPadExact(n: nat, width: nat)
    requires width >= 1 && n < Pow10(width)
    ensures |ZeroPad(n, width)| == width
  {
    NatToStringLength(n, width);
  }
}
