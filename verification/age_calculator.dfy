/** `StarHealthCalculator.calculate_age`: age in completed years of a person
    born on the parsed date, relative to "today", which the model receives
    as a parameter instead of reading the clock. */
module AgeCalculator {

  import opened Wrappers
  import opened DateParse

  /** `(a.month, a.day) < (b.month, b.day)` as Python compares tuples. */
  predicate MonthDayBefore(a: Date, b: Date)
  {
    a.month < b.month || (a.month == b.month && a.day < b.day)
  }

  /** `today.year - dob.year - ((today.month, today.day) < (dob.month, dob.day))`;
      Python counts the boolean as 1 or 0. */
  function Age(dob: Date, today: Date): (r: int)
    ensures r == today.year - dob.year || r == today.year - dob.year - 1
    ensures r == today.year - dob.year <==> !MonthDayBefore(today, dob)
  {
    today.year - dob.year - (if MonthDayBefore(today, dob) then 1 else 0)
  }

  /** `calculate_age(dob_str)` with the clock read replaced by `today`;
      `None` where `strptime` raises `ValueError`. */
  function CalculateAge(dobText: string, today: Date): (r: Option<int>)
    ensures r.Some? <==> Parse(dobText).Some?
    ensures r.Some? ==> r.value == Age(Parse(dobText).value, today)
  {
    match Parse(dobText)
    case None => None
    case Some(dob) => Some(Age(dob, today))
  }

  // ---------------------------------------------------------------------------
  // An independent reading of "age": the number of birthdays already reached

  /** `a` is on or before `b` in calendar order. */
  predicate DateLe(a: Date, b: Date)
  {
    a.year < b.year || (a.year == b.year && !MonthDayBefore(b, a))
  }

  /** The `n`-th anniversary of `dob`; for a 29 February birthday in a common
      year it is a date that does not exist, which falls between 28 February
      and 1 March. */
  function Anniversary(dob: Date, n: int): Date
  {
    Date(dob.year + n, dob.month, dob.day)
  }

  /** The age is the number of anniversaries already reached: the last one
      reached is on or before today, the next one is after today. */
  lemma AgeCountsBirthdays(dob: Date, today: Date)
    ensures DateLe(Anniversary(dob, Age(dob, today)), today)
    ensures !DateLe(Anniversary(dob, Age(dob, today) + 1), today)
  {
  }

  /** Only the age has that property. */
  lemma AgeUnique(dob: Date, today: Date, n: int)
    requires DateLe(Anniversary(dob, n), today)
    requires !DateLe(Anniversary(dob, n + 1), today)
    ensures n == Age(dob, today)
  {
  }

  /** On the birthday itself the age is the plain difference of the years. */
  lemma AgeOnBirthday(dob: Date, today: Date)
    requires today.month == dob.month && today.day == dob.day
    ensures Age(dob, today) == today.year - dob.year
  {
  }

  /** Before this year's birthday the age is one less than the difference of the years. */
  lemma AgeBeforeBirthday(dob: Date, today: Date)
    requires MonthDayBefore(today, dob)
    ensures Age(dob, today) == today.year - dob.year - 1
  {
  }

  /** Nobody born on or before today has a negative age. */
  lemma AgeNonNegative(dob: Date, today: Date)
    requires DateLe(dob, today)
    ensures Age(dob, today) >= 0
  {
  }

  /** The age never decreases as today moves forward. */
  lemma AgeMonotonic(dob: Date, today: Date, later: Date)
    requires DateLe(today, later)
    ensures Age(dob, today) <= Age(dob, later)
  {
  }

  /** The two dates of the worked example for a birth date of 15 May 1990. */
  lemma AgeExamples()
    ensures CalculateAge("1990-05-15", Date(2024, 1, 10)) == Some(33)
    ensures CalculateAge("1990-05-15", Date(2024, 6, 1)) == Some(34)
  {
    ParseFormat(Date(1990, 5, 15));
    assert Format(Date(1990, 5, 15)) == "1990-05-15";
  }

  /** Text that is not a calendar date yields no age: 29 February of a
      common year, month 13, trailing text. */
  lemma CalculateAgeRejects(today: Date)
    ensures CalculateAge("2023-02-29", today) == None
    ensures CalculateAge("1990-13-01", today) == None
    ensures CalculateAge("1990-05-155", today) == None
  {
  }
}
