/** Naive (timezone-less) date-times as Python's `datetime` holds them, their
    order, and `datetime - timedelta(days=n)`. */
module Clock {

  datatype DateTime = DateTime(year: int, month: int, day: int, hour: int, minute: int, second: int)

  predicate IsLeapYear(y: int) {
    (y % 4 == 0 && y % 100 != 0) || y % 400 == 0
  }

  function DaysInMonth(y: int, m: int): (r: int)
    requires 1 <= m <= 12
    ensures 28 <= r <= 31
  {
    if m == 2 then (if IsLeapYear(y) then 29 else 28)
    else if m == 4 || m == 6 || m == 9 || m == 11 then 30
    else 31
  }

  predicate IsCalendarDate(y: int, m: int, d: int) {
    1 <= m <= 12 && 1 <= d <= DaysInMonth(y, m)
  }

  predicate Valid(t: DateTime) {
    IsCalendarDate(t.year, t.month, t.day)
    && 0 <= t.hour < 24 && 0 <= t.minute < 60 && 0 <= t.second < 60
  }

  /** `a < b` on datetimes: the fields compared from the year down. */
  predicate Lt(a: DateTime, b: DateTime) {
    if a.year != b.year then a.year < b.year
    else if a.month != b.month then a.month < b.month
    else if a.day != b.day then a.day < b.day
    else if a.hour != b.hour then a.hour < b.hour
    else if a.minute != b.minute then a.minute < b.minute
    else a.second < b.second
  }

  /** `a <= b` on datetimes. */
  predicate Le(a: DateTime, b: DateTime) {
    Lt(a, b) || a == b
  }

  lemma LtTransitive(a: DateTime, b: DateTime, c: DateTime)
    requires Lt(a, b) && Lt(b, c)
    ensures Lt(a, c)
  {
  }

  /** Exactly one of `a < b`, `a == b`, `b < a` holds. */
  lemma Trichotomy(a: DateTime, b: DateTime)
    ensures Lt(a, b) || a == b || Lt(b, a)
    ensures !(Lt(a, b) && Lt(b, a))
    ensures !Lt(a, a)
  {
  }

  /** The same time of day on the following calendar day. */
  function NextDay(t: DateTime): (r: DateTime)
    requires Valid(t)
    ensures Valid(r) && Lt(t, r)
    ensures (r.hour, r.minute, r.second) == (t.hour, t.minute, t.second)
  {
    if t.day < DaysInMonth(t.year, t.month) then t.(day := t.day + 1)
    else if t.month < 12 then t.(month := t.month + 1, day := 1)
    else t.(year := t.year + 1, month := 1, day := 1)
  }

  /** The same time of day on the previous calendar day. */
  function PrevDay(t: DateTime): (r: DateTime)
    requires Valid(t)
    ensures Valid(r) && Lt(r, t)
    ensures (r.hour, r.minute, r.second) == (t.hour, t.minute, t.second)
  {
    if t.day > 1 then t.(day := t.day - 1)
    else if t.month > 1 then t.(month := t.month - 1, day := DaysInMonth(t.year, t.month - 1))
    else t.(year := t.year - 1, month := 12, day := 31)
  }

  /** Going back a day and forward a day is the identity. */
  lemma NextPrev(t: DateTime)
    requires Valid(t)
    ensures NextDay(PrevDay(t)) == t && PrevDay(NextDay(t)) == t
  {
  }

  /** `t + timedelta(days=n)` for a whole number of days, either sign. */
  function ShiftDays(t: DateTime, n: int): (r: DateTime)
    requires Valid(t)
    ensures Valid(r)
    decreases if n < 0 then -n else n
  {
    if n == 0 then t
    else if n > 0 then ShiftDays(NextDay(t), n - 1)
    else ShiftDays(PrevDay(t), n + 1)
  }

  /** Going back a positive number of days gives an earlier instant, and a
      non-negative number never a later one. */
  lemma {:induction false} ShiftBackEarlier(t: DateTime, n: nat)
    requires Valid(t)
    ensures n > 0 ==> Lt(ShiftDays(t, -(n as int)), t)
    ensures Le(ShiftDays(t, -(n as int)), t)
    decreases n
  {
    if n > 0 {
      var p := PrevDay(t);
      ShiftBackEarlier(p, n - 1);
      assert ShiftDays(t, -(n as int)) == ShiftDays(p, -((n - 1) as int));
      if n - 1 > 0 {
        LtTransitive(ShiftDays(p, -((n - 1) as int)), p, t);
      }
    }
  }

  /** Going back more days gives an instant no later. */
  lemma {:induction false} ShiftBackMonotone(t: DateTime, m: nat, n: nat)
    requires Valid(t) && m <= n
    ensures Le(ShiftDays(t, -(n as int)), ShiftDays(t, -(m as int)))
    decreases n
  {
    if m < n {
      if m == 0 {
        ShiftBackEarlier(t, n);
      } else {
        var p := PrevDay(t);
        ShiftBackMonotone(p, m - 1, n - 1);
        assert ShiftDays(t, -(n as int)) == ShiftDays(p, -((n - 1) as int));
        assert ShiftDays(t, -(m as int)) == ShiftDays(p, -((m - 1) as int));
      }
    }
  }

  /** The first instant of the day: the parsed value of a bare `YYYY-MM-DD`. */
  function StartOfDay(t: DateTime): (r: DateTime)
    ensures (r.year, r.month, r.day) == (t.year, t.month, t.day)
    ensures Valid(t) ==> Valid(r) && Le(r, t)
  {
    t.(hour := 0, minute := 0, second := 0)
  }

  /** `t.replace(hour=23, minute=59, second=59)`: the last whole second of the day. */
  function EndOfDay(t: DateTime): (r: DateTime)
    ensures (r.year, r.month, r.day) == (t.year, t.month, t.day)
    ensures Valid(t) ==> Valid(r) && Le(t, r)
  {
    t.(hour := 23, minute := 59, second := 59)
  }
}
