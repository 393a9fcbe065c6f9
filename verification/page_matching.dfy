/** The element choices inside `StarHealthCalculator.fetch_quote`. Each of its
    four loops walks the elements the page returned, in document order, acts
    on the first one whose text passes a test, and stops there (`break`).
    The page itself is not modelled: an element is the text its test reads. */
module PageMatching {

  import opened Wrappers
  import opened Decimal

  /** A text input, with the attributes the age test reads and the value
      typed into it. */
  datatype InputField = InputField(placeholder: string, name: string, value: string)

  /** `str.lower()` on ASCII letters: no upper-case letter is left, each one
      becomes its lower-case partner, and every other character is kept. */
  function Lower(s: string): (r: string)
    ensures |r| == |s|
    ensures forall i :: 0 <= i < |r| ==> !('A' <= r[i] <= 'Z')
    ensures forall i :: 0 <= i < |s| && !('A' <= s[i] <= 'Z') ==> r[i] == s[i]
    ensures forall i :: 0 <= i < |s| && 'A' <= s[i] <= 'Z' ==>
      'a' <= r[i] <= 'z' && r[i] as int - 'a' as int == s[i] as int - 'A' as int
  {
    seq(|s|, i requires 0 <= i < |s| => if 'A' <= s[i] <= 'Z' then (s[i] as int + 32) as char else s[i])
  }

  /** Python's `sub in s` for strings. */
  predicate Contains(s: string, sub: string)
  {
    sub <= s || (s != [] && Contains(s[1..], sub))
  }

  /** `'age' in placeholder.lower() or 'age' in name.lower()` */
  predicate AgeFieldMatches(f: InputField)
  {
    Contains(Lower(f.placeholder), "age") || Contains(Lower(f.name), "age")
  }

  /** `str(sum_insured) in text or '5,00,000' in text if sum_insured == 500000 else False`.
      Python reads this as `(A or B) if sum_insured == 500000 else False`:
      the conditional binds more loosely than `or`. */
  predicate SumInsuredOptionMatches(sumInsured: int, text: string)
  {
    if sumInsured == 500000 then Contains(text, DecimalString(sumInsured)) || Contains(text, "5,00,000")
    else false
  }

  /** `str(tenure) in text` */
  predicate TenureOptionMatches(tenure: int, text: string)
  {
    Contains(text, DecimalString(tenure))
  }

  /** `'quote' in text.lower() or 'get' in text.lower()` */
  predicate QuoteButtonMatches(text: string)
  {
    Contains(Lower(text), "quote") || Contains(Lower(text), "get")
  }

  /** `r` names the first element that passes `matches`, or no element
      when none does. */
  predicate IsFirstMatch<T>(xs: seq<T>, matches: T -> bool, r: Option<nat>)
  {
    match r
    case None => forall i :: 0 <= i < |xs| ==> !matches(xs[i])
    case Some(k) => k < |xs| && matches(xs[k]) && forall i :: 0 <= i < k ==> !matches(xs[i])
  }

  /** The `for ... if ...: act; break` loop: the index of the element acted
      on, or `None` when the loop runs out without acting. */
  method FindFirst<T>(xs: seq<T>, matches: T -> bool) returns (r: Option<nat>)
    ensures IsFirstMatch(xs, matches, r)
  {
    var i := 0;
    while i < |xs|
      invariant 0 <= i <= |xs|
      invariant forall j :: 0 <= j < i ==> !matches(xs[j])
    {
      if matches(xs[i]) {
        return Some(i);
      }
      i := i + 1;
    }
    return None;
  }

  /** At most one answer satisfies IsFirstMatch. */
  lemma FirstMatchUnique<T>(xs: seq<T>, matches: T -> bool, r: Option<nat>, r': Option<nat>)
    requires IsFirstMatch(xs, matches, r) && IsFirstMatch(xs, matches, r')
    ensures r == r'
  {
  }

  /** Lines 59-64: clear the first age input and type `str(age)` into it;
      every other input is left as it was. */
  method FillAge(inputs: seq<InputField>, age: int) returns (filled: Option<nat>, after: seq<InputField>)
    ensures IsFirstMatch(inputs, AgeFieldMatches, filled)
    ensures |after| == |inputs|
    ensures forall i :: 0 <= i < |inputs| && filled != Some(i) ==> after[i] == inputs[i]
    ensures filled.Some? ==> after[filled.value] == inputs[filled.value].(value := DecimalString(age))
  {
    filled := FindFirst(inputs, AgeFieldMatches);
    after := inputs;
    if filled.Some? {
      var k := filled.value;
      after := inputs[k := inputs[k].(value := DecimalString(age))];
    }
  }

  /** Lines 67-71: the sum-insured option clicked, if any. */
  method SelectSumInsured(optionTexts: seq<string>, sumInsured: int) returns (clicked: Option<nat>)
    ensures IsFirstMatch(optionTexts, t => SumInsuredOptionMatches(sumInsured, t), clicked)
    ensures sumInsured != 500000 ==> clicked == None
  {
    clicked := FindFirst(optionTexts, t => SumInsuredOptionMatches(sumInsured, t));
  }

  /** Lines 74-78: the tenure option clicked, if any. */
  method SelectTenure(optionTexts: seq<string>, tenure: int) returns (clicked: Option<nat>)
    ensures IsFirstMatch(optionTexts, t => TenureOptionMatches(tenure, t), clicked)
  {
    clicked := FindFirst(optionTexts, t => TenureOptionMatches(tenure, t));
  }

  /** Lines 81-85: the button clicked, if any. */
  method ClickQuoteButton(buttonTexts: seq<string>) returns (clicked: Option<nat>)
    ensures IsFirstMatch(buttonTexts, QuoteButtonMatches, clicked)
  {
    clicked := FindFirst(buttonTexts, QuoteButtonMatches);
  }

  // ---------------------------------------------------------------------------
  // Lemmas

  /** `sub` occurs in `s` starting at offset `i`. */
  predicate OccursAt(s: string, sub: string, i: int)
  {
    0 <= i <= |s| - |sub| && s[i..i + |sub|] == sub
  }

  /** Contains is substring search: `sub` occurs in `s` at some offset. */
  lemma {:induction false} ContainsIff(s: string, sub: string)
    ensures Contains(s, sub) <==> exists i :: OccursAt(s, sub, i)
  {
    if sub <= s {
      assert OccursAt(s, sub, 0);
    } else if s != [] {
      ContainsIff(s[1..], sub);
      if exists i :: OccursAt(s, sub, i) {
        var i :| OccursAt(s, sub, i);
        assert i != 0;
        assert OccursAt(s[1..], sub, i - 1);
      }
      if exists i :: OccursAt(s[1..], sub, i) {
        var i :| OccursAt(s[1..], sub, i);
        assert OccursAt(s, sub, i + 1);
      }
    } else {
      assert |sub| > 0;
      assert forall i :: !OccursAt(s, sub, i);
    }
  }

  /** A one-character text occurs only where that character appears. */
  lemma ContainsChar(s: string, c: char)
    ensures Contains(s, [c]) <==> exists i :: 0 <= i < |s| && s[i] == c
  {
    ContainsIff(s, [c]);
    if exists i :: OccursAt(s, [c], i) {
      var i :| OccursAt(s, [c], i);
      assert s[i..i + 1][0] == s[i];
    }
    if exists i :: 0 <= i < |s| && s[i] == c {
      var i :| 0 <= i < |s| && s[i] == c;
      assert OccursAt(s, [c], i);
    }
  }

  lemma DecimalString500000()
    ensures DecimalString(500000) == "500000"
  {
  }

  /** The sum-insured test passes exactly for 5 lakh and an option that
      shows 500000 or 5,00,000; for any other sum insured, 10 lakh included,
      no option ever passes. */
  lemma SumInsuredOptionMatchesIff(sumInsured: int, text: string)
    ensures SumInsuredOptionMatches(sumInsured, text) <==>
      sumInsured == 500000 && (Contains(text, "500000") || Contains(text, "5,00,000"))
  {
    if sumInsured == 500000 {
      DecimalString500000();
    }
  }

  /** For 10 lakh the sum-insured loop clicks nothing, whatever the page offers. */
  lemma NoSumInsuredOptionForTenLakh(optionTexts: seq<string>)
    ensures IsFirstMatch(optionTexts, t => SumInsuredOptionMatches(1000000, t), None)
  {
  }

  lemma LowerExamples()
    ensures Lower("Message") == "message"
    ensures Lower("Name") == "name" && Lower("name") == "name"
  {
  }

  lemma AgeOccurrences()
    ensures Contains("message", "age")
    ensures !Contains("name", "age")
  {
    ContainsIff("message", "age");
    assert OccursAt("message", "age", 4);
    ContainsIff("name", "age");
    assert "name"[0..3][0] != "age"[0] && "name"[1..4][1] != "age"[1];
    assert forall i :: !OccursAt("name", "age", i);
  }

  /** The age test reads "age" inside other words: an input whose placeholder
      is "Message" passes it, so it receives the age when no earlier text
      input passes. */
  lemma AgeFieldMatchesInsideWords()
    ensures AgeFieldMatches(InputField("Message", "", ""))
    ensures !AgeFieldMatches(InputField("Name", "name", ""))
  {
    LowerExamples();
    AgeOccurrences();
  }

  /** The tenure loop searches every option on the page: on a page listing
      the options "5,00,000", "10,00,000", "1 Year", "3 Years" in this order,
      tenure 1 clicks the "10,00,000" sum-insured option before it reaches
      "1 Year". */
  lemma TenureOneClicksSumInsuredOption(r: Option<nat>)
    requires IsFirstMatch(["5,00,000", "10,00,000", "1 Year", "3 Years"], t => TenureOptionMatches(1, t), r)
    ensures r == Some(1)
  {
    assert DecimalString(1) == "1";
    var xs := ["5,00,000", "10,00,000", "1 Year", "3 Years"];
    var matches := t => TenureOptionMatches(1, t);
    assert matches(xs[1]) by {
      assert Contains("10,00,000", "1");
    }
    assert !matches(xs[0]) by {
      ContainsChar("5,00,000", '1');
    }
    FirstMatchUnique(xs, matches, r, Some(1));
  }
}
