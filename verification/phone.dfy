/**
  Phone normalisation without the `phonenumbers` library (app.py:3247-3306):
  the fallback branch of `_parse_phone_candidate`, `normalize_phone`,
  `is_valid_phone` and the de-duplicating loop of `find_labelled_phones`.

  The region argument only matters to the library branch, so it does not
  appear here. `_looks_like_date_sequence` is the parameter `isDate`.
*/
module Phone {
  import opened Wrappers
  import opened Text
  import opened Seqs

  /** The date test of `_looks_like_date_sequence`, applied to the digit string. */
  type DateTest = string -> bool

  /** Ascending and descending runs that are never real numbers. */
  const KNOWN_RUNS: set<string> := {"0123456789", "1234567890", "9876543210", "0987654321"}

  /** `re.sub(r"\D", "", s)`. */
  function Digits(s: string): string {
    if s == [] then [] else (if IsDigit(s[0]) then [s[0]] else []) + Digits(s[1..])
  }

  lemma {:induction false} DigitsAreDigits(s: string)
    ensures AllDigits(Digits(s)) && |Digits(s)| <= |s|
  {
    if s != [] {
      DigitsAreDigits(s[1..]);
    }
  }

  lemma {:induction false} DigitsOfDigits(s: string)
    requires AllDigits(s)
    ensures Digits(s) == s
  {
    if s != [] {
      DigitsOfDigits(s[1..]);
    }
  }

  /** A `+` followed by digits keeps exactly those digits. */
  lemma DigitsOfInternational(d: string)
    requires AllDigits(d)
    ensures Digits("+" + d) == d
  {
    assert ("+" + d)[1..] == d;
    DigitsOfDigits(d);
  }

  /** `s.lstrip("0")`. */
  function TrimLeadingZeros(s: string): string {
    if |s| > 0 && s[0] == '0' then TrimLeadingZeros(s[1..]) else s
  }

  lemma {:induction false} TrimLeadingZerosIsSuffix(s: string)
    ensures |TrimLeadingZeros(s)| <= |s| && TrimLeadingZeros(s) == s[|s| - |TrimLeadingZeros(s)|..]
    ensures TrimLeadingZeros(s) == [] || TrimLeadingZeros(s)[0] != '0'
  {
    if |s| > 0 && s[0] == '0' {
      TrimLeadingZerosIsSuffix(s[1..]);
    }
  }

  /** Leading zeros are removed one by one. */
  lemma {:induction false} TrimSkipsZeros(s: string, k: nat)
    requires k <= |s| && forall i | 0 <= i < k :: s[i] == '0'
    ensures TrimLeadingZeros(s) == TrimLeadingZeros(s[k..])
  {
    if k > 0 {
      TrimSkipsZeros(s[1..], k - 1);
      assert s[1..][k - 1..] == s[k..];
    }
  }

  /** `len(set(digits)) == 1`. */
  predicate RepeatedDigit(d: string) {
    |d| > 0 && forall i | 0 <= i < |d| :: d[i] == d[0]
  }

  /**
    The plausibility rules of the fallback parser: 7 to 15 digits, not a date
    (only an 8-digit string can be one once fewer than 7 digits are refused),
    not one digit repeated, not a known run.
  */
  predicate Plausible(d: string, isDate: DateTest) {
    && 7 <= |d| <= 15
    && !(|d| == 8 && isDate(d))
    && !RepeatedDigit(d)
    && d !in KNOWN_RUNS
  }

  /**
    The fallback branch of `_parse_phone_candidate` as written: the
    plausibility rules are applied to the digits before a `00` prefix has its
    leading zeros removed. (The replacement of no-break spaces that follows the
    strip changes neither the digits nor the first characters, so it is left out.)
  */
  function ParseCandidateAsWritten(raw: string, isDate: DateTest): Option<string> {
    var candidate := Strip(raw);
    var digits := Digits(candidate);
    if raw == [] || candidate == [] then None
    else if !Plausible(digits, isDate) then None
    else if StartsWith(candidate, "+") then Some("+" + digits)
    else if StartsWith(candidate, "00") && |digits| > 2 then
      var trimmed := TrimLeadingZeros(digits);
      if trimmed != [] then Some("+" + trimmed) else None
    else Some(digits)
  }

  /**
    The fallback branch of `_parse_phone_candidate` with the plausibility rules
    also applied to the digits left after a `00` prefix is removed; the rest
    of the model uses this one.
  */
  function ParseCandidate(raw: string, isDate: DateTest): Option<string> {
    var candidate := Strip(raw);
    var digits := Digits(candidate);
    if raw == [] || candidate == [] then None
    else if !Plausible(digits, isDate) then None
    else if StartsWith(candidate, "+") then Some("+" + digits)
    else if StartsWith(candidate, "00") && |digits| > 2 then
      var trimmed := TrimLeadingZeros(digits);
      if trimmed != [] && Plausible(trimmed, isDate) then Some("+" + trimmed) else None
    else Some(digits)
  }

  /**
    On a plausible digit string with a `00` prefix the two parsers differ only
    in whether the digits left after the zeros are checked again.
  */
  lemma ZeroPrefixedCandidates(raw: string, isDate: DateTest)
    requires AllDigits(raw) && StartsWith(raw, "00") && Plausible(raw, isDate)
    ensures TrimLeadingZeros(raw) != []
    ensures ParseCandidateAsWritten(raw, isDate) == Some("+" + TrimLeadingZeros(raw))
    ensures ParseCandidate(raw, isDate) ==
      if Plausible(TrimLeadingZeros(raw), isDate) then Some("+" + TrimLeadingZeros(raw)) else None
  {
    StripOfSpaceFree(raw);
    DigitsOfDigits(raw);
    TrimmedDigitsNeverEmpty(raw, isDate);
  }

  /** The as-written parser accepts "00000123456" as a number of 6 digits, which the corrected one refuses. */
  lemma {:induction false} AsWrittenAcceptsSixDigitNumber(raw: string, isDate: DateTest)
    requires raw == "00000123456"
    ensures ParseCandidateAsWritten(raw, isDate) == Some("+123456")
    ensures |Digits("+123456")| == 6 && !Plausible(Digits("+123456"), isDate)
    ensures ParseCandidate(raw, isDate) == None
    ensures ParseCandidateAsWritten("+123456", isDate) == None
  {
    SixDigitDigits(raw);
    ZeroPrefixedCandidates(raw, isDate);
    assert "+" + "123456" == "+123456";
    DigitsOfInternational("123456");
    StripOfSpaceFree("+123456");
  }

  /** "00000123456" is all digits, not one repeated digit, and "123456" without its leading zeros. */
  lemma {:induction false} SixDigitDigits(raw: string)
    requires raw == "00000123456"
    ensures AllDigits(raw) && !RepeatedDigit(raw) && TrimLeadingZeros(raw) == "123456"
  {
    assert !RepeatedDigit(raw) by { assert raw[5] != raw[0]; }
    TrimSkipsZeros(raw, 5);
    assert raw[5..] == "123456";
  }

  /**
    The as-written parser turns "009876543210" into "+9876543210"; the
    corrected one refuses it, since "9876543210" is a known run.
  */
  lemma {:induction false} AsWrittenAcceptsRunAfterZeros(raw: string, isDate: DateTest)
    requires raw == "009876543210"
    ensures ParseCandidateAsWritten(raw, isDate) == Some("+9876543210")
    ensures ParseCandidate(raw, isDate) == None
  {
    assert AllDigits(raw) && StartsWith(raw, "00");
    assert !RepeatedDigit(raw) by { assert raw[2] != raw[0]; }
    TrimSkipsZeros(raw, 2);
    assert raw[2..] == "9876543210";
    ZeroPrefixedCandidates(raw, isDate);
    assert "+" + "9876543210" == "+9876543210";
  }

  /** Wherever the as-written parser's international result is itself plausible, the two parsers agree. */
  lemma ParsersAgreeOnPlausibleResults(raw: string, isDate: DateTest)
    ensures ParseCandidateAsWritten(raw, isDate).Some? && ParseCandidateAsWritten(raw, isDate).value[0] == '+'
            && Plausible(ParseCandidateAsWritten(raw, isDate).value[1..], isDate)
            ==> ParseCandidate(raw, isDate) == ParseCandidateAsWritten(raw, isDate)
  {
    var r := ParseCandidateAsWritten(raw, isDate);
    if r.Some? && r.value[0] == '+' && Plausible(r.value[1..], isDate) {
      var c := Strip(raw);
      var d := Digits(c);
      if !StartsWith(c, "+") && StartsWith(c, "00") && |d| > 2 {
        assert r.value[1..] == TrimLeadingZeros(d);
      }
    }
  }

  /**
    The program's parser on every input: a candidate is accepted exactly when
    its digits are plausible, and the result is "+" and the digits for a `+`
    candidate, "+" and the digits without their leading zeros for a `00`
    candidate, and the bare digits otherwise.
  */
  lemma AsWrittenAccepts(raw: string, isDate: DateTest)
    ensures ParseCandidateAsWritten(raw, isDate).Some? <==> Strip(raw) != [] && Plausible(Digits(Strip(raw)), isDate)
    ensures StartsWith(Strip(raw), "+") && Plausible(Digits(Strip(raw)), isDate) ==>
      ParseCandidateAsWritten(raw, isDate) == Some("+" + Digits(Strip(raw)))
    ensures !StartsWith(Strip(raw), "+") && StartsWith(Strip(raw), "00") && Plausible(Digits(Strip(raw)), isDate) ==>
      && TrimLeadingZeros(Digits(Strip(raw))) != []
      && AllDigits(TrimLeadingZeros(Digits(Strip(raw))))
      && ParseCandidateAsWritten(raw, isDate) == Some("+" + TrimLeadingZeros(Digits(Strip(raw))))
    ensures Strip(raw) != [] && !StartsWith(Strip(raw), "+") && !StartsWith(Strip(raw), "00")
            && Plausible(Digits(Strip(raw)), isDate) ==>
      ParseCandidateAsWritten(raw, isDate) == Some(Digits(Strip(raw)))
  {
    DigitsAreDigits(Strip(raw));
    if Plausible(Digits(Strip(raw)), isDate) {
      TrimmedDigitsNeverEmpty(Digits(Strip(raw)), isDate);
      TrimmedAreDigits(Digits(Strip(raw)));
    }
  }

  /** What the parser accepts is itself a plausible number: the rule the source states on its input. */
  lemma {:induction false} AcceptedNumbersArePlausible(raw: string, isDate: DateTest)
    ensures ParseCandidate(raw, isDate).Some? ==>
      var v := ParseCandidate(raw, isDate).value;
      v != [] && Plausible(Digits(v), isDate) && (v[0] == '+' ==> v[1..] == Digits(v))
  {
    var c := Strip(raw);
    var d := Digits(c);
    var r := ParseCandidate(raw, isDate);
    DigitsAreDigits(c);
    if r.Some? {
      if StartsWith(c, "+") {
        InternationalPlausible(r.value, d, isDate);
      } else if StartsWith(c, "00") && |d| > 2 {
        var t := TrimLeadingZeros(d);
        TrimmedAreDigits(d);
        InternationalPlausible(r.value, t, isDate);
      } else {
        DigitsOfDigits(d);
        assert IsDigit(r.value[0]);
      }
    }
  }

  lemma InternationalPlausible(v: string, d: string, isDate: DateTest)
    requires v == "+" + d && AllDigits(d) && Plausible(d, isDate)
    ensures v != [] && Plausible(Digits(v), isDate) && v[1..] == Digits(v)
  {
    DigitsOfInternational(d);
  }

  lemma TrimmedAreDigits(d: string)
    requires AllDigits(d)
    ensures AllDigits(TrimLeadingZeros(d))
  {
    var t := TrimLeadingZeros(d);
    TrimLeadingZerosIsSuffix(d);
    forall i | 0 <= i < |t| ensures IsDigit(t[i]) {
      assert t[i] == d[|d| - |t| + i];
    }
  }

  /** Only a repeated zero could lose all its digits to the `00` trimming, and that is refused first. */
  lemma {:induction false} TrimmedDigitsNeverEmpty(d: string, isDate: DateTest)
    requires AllDigits(d) && Plausible(d, isDate)
    ensures TrimLeadingZeros(d) != []
  {
    if TrimLeadingZeros(d) == [] {
      AllZerosTrimToEmpty(d);
      assert RepeatedDigit(d);
    }
  }

  lemma {:induction false} AllZerosTrimToEmpty(d: string)
    requires TrimLeadingZeros(d) == []
    ensures forall i | 0 <= i < |d| :: d[i] == '0'
  {
    if d != [] {
      AllZerosTrimToEmpty(d[1..]);
      assert forall i | 1 <= i < |d| :: d[i] == d[1..][i - 1];
    }
  }

  /** The forms of a plausible candidate's result: `+digits`, `+` and the digits after a `00` prefix, or bare digits. */
  lemma PlausibleCandidatesAreAccepted(raw: string, isDate: DateTest)
    requires Strip(raw) != [] && Plausible(Digits(Strip(raw)), isDate)
    ensures StartsWith(Strip(raw), "+") ==> ParseCandidate(raw, isDate) == Some("+" + Digits(Strip(raw)))
    ensures !StartsWith(Strip(raw), "+") && StartsWith(Strip(raw), "00") ==>
      (ParseCandidate(raw, isDate).Some? <==> Plausible(TrimLeadingZeros(Digits(Strip(raw))), isDate))
    ensures !StartsWith(Strip(raw), "+") && StartsWith(Strip(raw), "00") && ParseCandidate(raw, isDate).Some? ==>
      ParseCandidate(raw, isDate) == Some("+" + TrimLeadingZeros(Digits(Strip(raw))))
    ensures !StartsWith(Strip(raw), "+") && !StartsWith(Strip(raw), "00") ==>
      ParseCandidate(raw, isDate) == Some(Digits(Strip(raw)))
  {
    DigitsAreDigits(Strip(raw));
    TrimmedDigitsNeverEmpty(Digits(Strip(raw)), isDate);
  }

  /** An international result parses back to itself. */
  lemma ReparseInternational(raw: string, isDate: DateTest)
    requires ParseCandidate(raw, isDate).Some? && ParseCandidate(raw, isDate).value[0] == '+'
    ensures ParseCandidate(ParseCandidate(raw, isDate).value, isDate) == ParseCandidate(raw, isDate)
  {
    var v := ParseCandidate(raw, isDate).value;
    AcceptedNumbersArePlausible(raw, isDate);
    DigitsAreDigits(v);
    assert forall i | 0 <= i < |v| :: !IsSpace(v[i]) by {
      forall i | 1 <= i < |v| ensures IsDigit(v[i]) {
        assert v[i] == v[1..][i - 1];
      }
    }
    StripOfSpaceFree(v);
    assert StartsWith(v, "+");
    assert "+" + v[1..] == v;
  }

  /** `normalize_phone`: the parsed number, or "" when there is none. */
  function NormalizePhone(raw: string, isDate: DateTest): string {
    match ParseCandidate(raw, isDate)
    case Some(v) => v
    case None => ""
  }

  /** `is_valid_phone`: true exactly when normalisation yields a number. */
  function IsValidPhone(raw: string, isDate: DateTest): (b: bool)
    ensures b <==> NormalizePhone(raw, isDate) != ""
  {
    match ParseCandidate(raw, isDate)
    case Some(v) => v != ""
    case None => false
  }

  /** The empty string stands for a rejected candidate, and only for that. */
  lemma NormalizeEmptyIffRejected(raw: string, isDate: DateTest)
    ensures NormalizePhone(raw, isDate) == "" <==> ParseCandidate(raw, isDate).None?
  {
    AcceptedNumbersArePlausible(raw, isDate);
  }

  /** `normalize_phone` as the program has it: the as-written parse, or "". */
  function NormalizePhoneAsWritten(raw: string, isDate: DateTest): string {
    match ParseCandidateAsWritten(raw, isDate)
    case Some(v) => v
    case None => ""
  }

  /** `is_valid_phone` as the program has it: true exactly for a candidate whose digits are plausible. */
  function IsValidPhoneAsWritten(raw: string, isDate: DateTest): (b: bool)
    ensures b <==> NormalizePhoneAsWritten(raw, isDate) != ""
    ensures b <==> Strip(raw) != [] && Plausible(Digits(Strip(raw)), isDate)
  {
    AsWrittenAccepts(raw, isDate);
    match ParseCandidateAsWritten(raw, isDate)
    case Some(v) => v != ""
    case None => false
  }

  /**
    The corrected `normalize_phone` accepts only what the program's accepts
    and agrees with it there; the two differ only on a `00` candidate whose
    digits without the leading zeros are not plausible.
  */
  lemma CorrectedNormalizeRefinesAsWritten(raw: string, isDate: DateTest)
    ensures NormalizePhone(raw, isDate) != "" ==> NormalizePhone(raw, isDate) == NormalizePhoneAsWritten(raw, isDate)
    ensures NormalizePhone(raw, isDate) != NormalizePhoneAsWritten(raw, isDate) ==>
      && NormalizePhone(raw, isDate) == ""
      && !StartsWith(Strip(raw), "+") && StartsWith(Strip(raw), "00")
      && NormalizePhoneAsWritten(raw, isDate) == "+" + TrimLeadingZeros(Digits(Strip(raw)))
      && !Plausible(TrimLeadingZeros(Digits(Strip(raw))), isDate)
  {
    NormalizeEmptyIffRejected(raw, isDate);
    AsWrittenAccepts(raw, isDate);
  }

  /** `normalize_phone` applied to each match, in order. */
  function NormalizeAll(matches: seq<string>, isDate: DateTest): seq<string> {
    seq(|matches|, i requires 0 <= i < |matches| => NormalizePhone(matches[i], isDate))
  }

  /**
    What `find_labelled_phones` returns for a non-empty text: the distinct
    numbers of the labelled matches in order of first appearance, or, when
    there are none, those of the bare number-like tokens.
  */
  function LabelledPhones(labelled: seq<string>, tokens: seq<string>, isDate: DateTest): seq<string> {
    FreshOrElse(NormalizeAll(labelled, isDate), NormalizeAll(tokens, isDate), {""})
  }

  /**
    The result is duplicate-free and holds exactly the non-empty numbers of
    the labelled matches, or, when they yield none, those of the tokens.
  */
  lemma LabelledPhonesSpec(labelled: seq<string>, tokens: seq<string>, isDate: DateTest)
    ensures NoDup(LabelledPhones(labelled, tokens, isDate))
    ensures Elems(NormalizeAll(labelled, isDate)) - {""} != {} ==>
      Elems(LabelledPhones(labelled, tokens, isDate)) == Elems(NormalizeAll(labelled, isDate)) - {""}
    ensures Elems(NormalizeAll(labelled, isDate)) - {""} == {} ==>
      Elems(LabelledPhones(labelled, tokens, isDate)) == Elems(NormalizeAll(tokens, isDate)) - {""}
  {
    FreshOrElseSpec(NormalizeAll(labelled, isDate), NormalizeAll(tokens, isDate), {""});
  }

  /**
    The `seen`-set loop of `find_labelled_phones` and of the contact
    aggregation: each non-empty number not seen before is kept, in order, and
    remembered.
  */
  method FreshNumbers(numbers: seq<string>, seen: set<string>) returns (found: seq<string>, seenAfter: set<string>)
    ensures found == Fresh(numbers, seen + {""})
    ensures seenAfter == seen + Elems(found)
  {
    found := [];
    seenAfter := seen;
    var i := 0;
    while i < |numbers|
      invariant 0 <= i <= |numbers|
      invariant found == Fresh(numbers[..i], seen + {""})
      invariant seenAfter == seen + Elems(found)
    {
      var normalized := numbers[i];
      assert numbers[..i + 1] == numbers[..i] + [normalized];
      FreshLoopStep(numbers[..i], normalized, seen + {""}, found, Elems(found));
      if normalized != "" && normalized !in seenAfter {
        seenAfter := seenAfter + {normalized};
        found := found + [normalized];
      }
      i := i + 1;
    }
    assert numbers[..i] == numbers;
  }

  /**
    `find_labelled_phones`: the labelled matches (group 1 of each label match)
    and the bare tokens are the regular-expression matches of the text, in order.
  */
  method FindLabelledPhones(text: string, labelled: seq<string>, tokens: seq<string>, isDate: DateTest)
    returns (results: seq<string>)
    ensures text == [] ==> results == []
    ensures text != [] ==> results == LabelledPhones(labelled, tokens, isDate)
  {
    results := [];
    if text == [] {
      return;
    }
    var seen;
    results, seen := FreshNumbers(NormalizeAll(labelled, isDate), {});
    assert {} + {""} == {""};
    if results == [] {
      assert seen == {} by { assert Elems(results) == {}; }
      results, seen := FreshNumbers(NormalizeAll(tokens, isDate), seen);
    }
  }
}
