# Star Health quote calculator: a Dafny model

`star_health_calculator.py` defines `StarHealthCalculator`. Given a date of
birth, the object fetches premium quotes for four fixed scenarios from the Star
Health quick-quote page: 5 lakh for 1 and 3 years, then 10 lakh for 1 and 3 years.
It drives a browser to do this. This project models the parts of that object
whose behaviour can be stated without the browser:

- `date_parse.dfy`, module `DateParse`: `datetime.strptime(dob, '%Y-%m-%d')` as
  CPython's `_strptime` implements it. The parse must match the regular
  expression `\d\d\d\d-(1[0-2]|0[1-9]|[1-9])-(3[01]|[12]\d|0[1-9]|[1-9]| [1-9])`,
  no text may be left over, and the date must exist (year 1 to 9999; a day the
  month has, counting leap years). `ParseIffSpelling` characterises the accepted
  texts without the regular expression.
- `age_calculator.dfy`, module `AgeCalculator`: `calculate_age`, which gives the
  age in completed years. The clock read `datetime.today()` becomes the
  parameter `today`. The age is proved equal to the number of birthdays already
  reached. It is non-negative whenever the birth date is on or before `today`,
  and it never decreases as `today` advances.
- `page_matching.dfy`, module `PageMatching`: the four element choices inside
  `fetch_quote`: the age input, the sum-insured option, the tenure option and
  the quote button. Each is one generic first-match loop, `FindFirst`, with the
  source's own test. An element is modelled as the text (or attributes) the
  test reads.
- `star_health_calculator.dfy`, module `StarHealth`: the four scenarios,
  Python's insertion-ordered `dict`, and the report `{'dob', 'age', 'quotes'}`.
  The class `StarHealthCalculator` holds the field `quotes` and the methods
  `FetchQuote` and `GetAllQuotes`. Scraping one quote is the parameter
  `fetch: FetchRequest -> Option<string>`. It returns the premium text, or
  `None` where `fetch_quote` catches an exception. A ghost field `Requests`
  records every fetch the object makes, so the contracts can say which calls
  happen and in what order.
- `decimal.dfy`, module `Decimal`: `int()` of a digit string and `str()` of an
  integer. `wrappers.dfy`, module `Wrappers`: `Option`.

Behaviour of the code that this model records:

- The parse is more lenient than "YYYY-MM-DD". A one-digit month (`1990-5-15`)
  is accepted, and so is a one-digit day with or without a leading blank
  (`1990-05-5`, `1990-05- 5`). Such a text gives the same date as its
  zero-padded form.
- In the sum-insured test at line 69, Python's conditional expression binds
  more loosely than `or`. The test is therefore `(A or B) if sum_insured ==
  500000 else False`. For 10 lakh no option is ever selected
  (`NoSumInsuredOptionForTenLakh`).
- The tenure loop runs over every `select option` on the page. For tenure 1 it
  picks the first option whose text contains the digit 1. On a page listing
  the options "5,00,000", "10,00,000", "1 Year", "3 Years" in this order, that
  is the "10,00,000" sum-insured option (`TenureOneClicksSumInsuredOption`).
- The age test looks for `age` anywhere in the lower-cased placeholder or name.
  An input whose placeholder is "Message" passes that test, so it can be the
  input that receives the age when it is the first to pass
  (`AgeFieldMatchesInsideWords`).
- When the date does not parse, `get_all_quotes` raises before it fetches
  anything, and `self.quotes` keeps its previous value.

## Model

| member | source | states |
|---|---|---|
| `DateParse.Parse` | star_health_calculator.py:30 | whatever `strptime` accepts is a real calendar date (year 1-9999, month 1-12, a day the month has); malformed text gives `None` |
| `DateParse.ParseIffSpelling` | star_health_calculator.py:30 | the parse returns `d` if and only if `d` is a valid date and the text spells it: four-digit year, month as two digits or one, day as two digits, one digit or blank plus digit |
| `DateParse.ParseFormat` | star_health_calculator.py:30 | the zero-padded `YYYY-MM-DD` text of every valid date parses back to that date |
| `Decimal.NatString` | star_health_calculator.py:63 | `str(n)` of a natural number is a non-empty digit string without a leading zero that reads back as `n` |
| `Decimal.DecimalString` | star_health_calculator.py:63 | `str(n)` of any integer: exactly `NatString(n)` for `n >= 0`, and `'-'` followed by exactly `NatString(-n)` otherwise; so the text is non-empty, has no leading zero, and its digits read back as the number |
| `AgeCalculator.Age` | star_health_calculator.py:32 | the age is the year difference or one less, and it is the plain difference exactly when today's (month, day) is not before the birth (month, day) |
| `AgeCalculator.CalculateAge` | star_health_calculator.py:26-33 | an age exists exactly when the birth date parses, and it is the age of the parsed date at `today` |
| `AgeCalculator.AgeCountsBirthdays` | star_health_calculator.py:32 | the age is the number of anniversaries reached: the last one counted is on or before today, the next one is after today |
| `AgeCalculator.AgeUnique` | star_health_calculator.py:32 | no other number has that property, so the year arithmetic equals the number of completed years |
| `AgeCalculator.AgeOnBirthday` | star_health_calculator.py:32 | when today's month and day equal the birth month and day, the age is the plain year difference |
| `AgeCalculator.AgeBeforeBirthday` | star_health_calculator.py:32 | when today's (month, day) comes before the birth (month, day), the age is the year difference minus one |
| `AgeCalculator.AgeNonNegative` | star_health_calculator.py:32 | a birth date on or before today gives an age of at least 0 |
| `AgeCalculator.AgeMonotonic` | star_health_calculator.py:32 | the age never decreases as today advances |
| `AgeCalculator.AgeExamples` | star_health_calculator.py:152 | "1990-05-15" gives 33 on 2024-01-10 and 34 on 2024-06-01 |
| `AgeCalculator.CalculateAgeRejects` | star_health_calculator.py:30 | 29 February of a common year, month 13 and trailing text give no age |
| `PageMatching.FindFirst` | star_health_calculator.py:60-64 | a `for ... if ...: act; break` loop acts on the first element that passes the test and on none after it; no element is acted on only when none passes |
| `PageMatching.FirstMatchUnique` | star_health_calculator.py:60-85 | the element each selection loop acts on is determined by the elements and the test |
| `PageMatching.FillAge` | star_health_calculator.py:59-64 | `str(age)` is typed into the first input whose placeholder or name contains "age", ignoring case; every other input is unchanged |
| `PageMatching.SelectSumInsured` | star_health_calculator.py:67-71 | the first option passing the sum-insured test is clicked; for any sum other than 500000 none is clicked |
| `PageMatching.SelectTenure` | star_health_calculator.py:74-78 | the first option whose text contains `str(tenure)` is clicked |
| `PageMatching.ClickQuoteButton` | star_health_calculator.py:81-85 | the first button whose lower-cased text contains "quote" or "get" is clicked |
| `PageMatching.Lower` | star_health_calculator.py:61 | `str.lower()`: no upper-case ASCII letter is left, each becomes its lower-case partner, every other character is kept |
| `PageMatching.ContainsIff` | star_health_calculator.py:61 | Python's `sub in s` holds exactly when `sub` occurs in `s` at some offset |
| `PageMatching.SumInsuredOptionMatchesIff` | star_health_calculator.py:69 | the sum-insured test holds if and only if the sum is 500000 and the text contains "500000" or "5,00,000" |
| `PageMatching.NoSumInsuredOptionForTenLakh` | star_health_calculator.py:67-71 | for 1000000 the sum-insured loop clicks nothing, whatever options the page has |
| `PageMatching.AgeFieldMatchesInsideWords` | star_health_calculator.py:61 | an input with placeholder "Message" passes the age test; one named "name" does not |
| `PageMatching.TenureOneClicksSumInsuredOption` | star_health_calculator.py:74-78 | on the options "5,00,000", "10,00,000", "1 Year", "3 Years", tenure 1 clicks "10,00,000" |
| `StarHealth.PutNewKey` | star_health_calculator.py:125 | assigning a key the dict does not have appends the entry after all existing ones |
| `StarHealth.PutGet` | star_health_calculator.py:125 | after `d[k] = v`, `k` maps to `v` and every other key keeps its value |
| `StarHealth.QuotesAfter` | star_health_calculator.py:122-125 | after the loop has handled `n` scenarios, the quote keys are exactly the first `n` labels, in order |
| `StarHealth.QuotesAfterAppends` | star_health_calculator.py:122-125 | each scenario appends its own entry (label, premium fetched for it); no assignment overwrites an earlier one |
| `StarHealth.QuotesOfRun` | star_health_calculator.py:109-125 | the quotes of a run have exactly the keys 5L/1yr, 5L/3yr, 10L/1yr, 10L/3yr, in that order; each maps to the result of its own fetch; no other key is present |
| `StarHealth.AllQuotes` | star_health_calculator.py:107-129 | what `get_all_quotes` returns: a report exists exactly when the date parses; its `dob` is the input, its `age` the computed age, and its quote keys are the four labels in scenario order |
| `StarHealth.AllQuotesReport` | star_health_calculator.py:107-129 | a report exists exactly when the date parses; its `dob` is the input, its `age` the computed age, and its quotes are those of `QuotesOfRun` |
| `StarHealth.AllFetchesFail` | star_health_calculator.py:122-125 | when every fetch fails, the report still has all four labels, each mapped to `None` |
| `StarHealth.FailureIsolated` | star_health_calculator.py:122-125 | a failure in one scenario changes only that label's premium, to `None`; the other scenarios are still fetched and recorded |
| `StarHealth.ScenarioRequestsInOrder` | star_health_calculator.py:109-114 | the fetch calls of a run are (age, 500000, 1), (age, 500000, 3), (age, 1000000, 1), (age, 1000000, 3), with the same age |
| `StarHealth.StarHealthCalculator.constructor` | star_health_calculator.py:20-22 | a new calculator holds the empty quotes and has made no request |
| `StarHealth.StarHealthCalculator.FetchQuote` | star_health_calculator.py:35-95 | one request is made with the given age, sum insured and tenure; its outcome (premium or `None`) is returned |
| `StarHealth.StarHealthCalculator.GetAllQuotes` | star_health_calculator.py:97-129 | returns `AllQuotes` of its arguments (characterised by `AllQuotesReport`); on success `self.quotes` is that report and exactly the four scenario requests were made, in order, with one age; on a parse error nothing changes and no request is made |

## Left out

- Browser control: creating the Chrome driver, loading the page, `WebDriverWait`, finding elements, `clear`, `send_keys` and `click` (lines 48-56, 89). Scraping one quote is the function parameter `fetch`. The selection loops work on the element texts they test.
- The browser session handle `self.driver`, with its lazy creation (lines 48-49) and `close` / `driver.quit()` (lines 139-144). These manage an external process.
- `time.sleep` (lines 88 and 126). Pauses have no logical effect.
- `print` of progress, errors and the summary (lines 94, 123, 156-161). This is console output.
- `save_results` (lines 131-137). It writes `self.quotes` to a JSON file unchanged; file output is not modelled.
- The clock read `datetime.today()` (line 31). It is the parameter `today`. Only year, month and day are used.
- The content of premium strings and the URL constant (line 24). Premiums are opaque scraped text.
- `DateParse.Parse`: `\d` in Python's regular expressions also matches non-ASCII decimal digits; the model accepts ASCII digits only.
- `PageMatching.Lower`: models `str.lower()` on ASCII letters only.
- The family-mode script is not part of this model.
- Exceptions inside `fetch_quote` that escape `except Exception` (such as `KeyboardInterrupt`). They would abort the run; the model assumes every fetch returns.
