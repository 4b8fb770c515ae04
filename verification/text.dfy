/**
  Character and string helpers shared by the model: ASCII digits and letters,
  case mapping, whitespace stripping, prefixes and decimal numerals.

  Python's `str.lower`, `str.upper`, `str.isdigit`, `str.strip` and the regular
  expression class `\d` are Unicode-aware; the model restricts case mapping and
  digits to ASCII, and `strip` removes exactly the characters for which Python's
  `str.isspace()` holds.
*/
module Text {

  predicate IsDigit(c: char) { '0' <= c <= '9' }

  predicate IsAsciiLetter(c: char) { 'a' <= c <= 'z' || 'A' <= c <= 'Z' }

  predicate IsUpperLetter(c: char) { 'A' <= c <= 'Z' }

  /** The characters Python's `str.strip()` removes: those for which `str.isspace()` holds. */
  predicate IsSpace(c: char) {
    || c == ' ' || ('\t' <= c <= '\r') || ('\U{1C}' <= c <= '\U{1F}')
    || c == '\U{85}' || c == '\U{A0}' || c == '\U{1680}' || ('\U{2000}' <= c <= '\U{200A}')
    || c == '\U{2028}' || c == '\U{2029}' || c == '\U{202F}' || c == '\U{205F}' || c == '\U{3000}'
  }

  predicate AllDigits(s: string) { forall i | 0 <= i < |s| :: IsDigit(s[i]) }

  /** `s.isdigit()`: non-empty and made of digits only. */
  predicate IsDigitString(s: string) { |s| > 0 && AllDigits(s) }

  function LowerChar(c: char): char { if 'A' <= c <= 'Z' then (c as int + 32) as char else c }

  function UpperChar(c: char): char { if 'a' <= c <= 'z' then (c as int - 32) as char else c }

  function Lower(s: string): (r: string)
    ensures |r| == |s|
    ensures forall i | 0 <= i < |s| :: r[i] == LowerChar(s[i])
  {
    seq(|s|, i requires 0 <= i < |s| => LowerChar(s[i]))
  }

  function Upper(s: string): (r: string)
    ensures |r| == |s|
    ensures forall i | 0 <= i < |s| :: r[i] == UpperChar(s[i])
  {
    seq(|s|, i requires 0 <= i < |s| => UpperChar(s[i]))
  }

  predicate StartsWith(s: string, prefix: string) {
    |prefix| <= |s| && s[..|prefix|] == prefix
  }

  predicate EndsWith(s: string, suffix: string) {
    |suffix| <= |s| && s[|s| - |suffix|..] == suffix
  }

  // ---------------------------------------------------------------------------
  // Whitespace stripping (`str.strip()`)

  function StripLeft(s: string): string {
    if |s| > 0 && IsSpace(s[0]) then StripLeft(s[1..]) else s
  }

  function StripRight(s: string): string {
    if |s| > 0 && IsSpace(s[|s| - 1]) then StripRight(s[..|s| - 1]) else s
  }

  lemma {:induction false} StripLeftIsSuffix(s: string)
    ensures |StripLeft(s)| <= |s| && StripLeft(s) == s[|s| - |StripLeft(s)|..]
    ensures StripLeft(s) == [] || !IsSpace(StripLeft(s)[0])
  {
    if |s| > 0 && IsSpace(s[0]) {
      StripLeftIsSuffix(s[1..]);
    }
  }

  lemma {:induction false} StripRightIsPrefix(s: string)
    ensures |StripRight(s)| <= |s| && StripRight(s) == s[..|StripRight(s)|]
    ensures StripRight(s) == [] || !IsSpace(StripRight(s)[|StripRight(s)| - 1])
  {
    if |s| > 0 && IsSpace(s[|s| - 1]) {
      StripRightIsPrefix(s[..|s| - 1]);
    }
  }

  function Strip(s: string): string {
    StripRight(StripLeft(s))
  }

  /** No leading and no trailing whitespace. */
  predicate Trimmed(s: string) {
    s == [] || (!IsSpace(s[0]) && !IsSpace(s[|s| - 1]))
  }

  lemma StripIsTrimmed(s: string)
    ensures Trimmed(Strip(s))
  {
    var l := StripLeft(s);
    var r := StripRight(l);
    StripLeftIsSuffix(s);
    StripRightIsPrefix(l);
    if r != [] {
      assert r[0] == l[0];
    }
  }

  lemma StripOfTrimmed(s: string)
    requires Trimmed(s)
    ensures Strip(s) == s
  {
  }

  lemma StripIdempotent(s: string)
    ensures Strip(Strip(s)) == Strip(s)
  {
    StripIsTrimmed(s);
    StripOfTrimmed(Strip(s));
  }

  /** A string without whitespace characters is its own strip. */
  lemma StripOfSpaceFree(s: string)
    requires forall i | 0 <= i < |s| :: !IsSpace(s[i])
    ensures Strip(s) == s
  {
    StripOfTrimmed(s);
  }

  lemma UpperKeepsTrimmed(s: string)
    requires Trimmed(s)
    ensures Trimmed(Upper(s))
  {
  }

  lemma LowerKeepsTrimmed(s: string)
    requires Trimmed(s)
    ensures Trimmed(Lower(s))
  {
  }

  /** For ASCII, lower-casing forgets a previous upper-casing. */
  lemma LowerOfUpper(s: string)
    ensures Lower(Upper(s)) == Lower(s)
  {
  }

  lemma UpperOfLower(s: string)
    ensures Upper(Lower(s)) == Upper(s)
  {
  }

  // ---------------------------------------------------------------------------
  // Decimal numerals (`str(n)` and `int(s)` on digit strings)

  function DigitChar(d: nat): char
    requires d < 10
  {
    ('0' as int + d) as char
  }

  function DigitValue(c: char): nat
    requires IsDigit(c)
  {
    c as int - '0' as int
  }

  function ShowNat(n: nat): (r: string)
    ensures IsDigitString(r)
  {
    if n < 10 then [DigitChar(n)] else ShowNat(n / 10) + [DigitChar(n % 10)]
  }

  function ParseNat(s: string): nat
    requires AllDigits(s)
  {
    if s == [] then 0 else ParseNat(s[..|s| - 1]) * 10 + DigitValue(s[|s| - 1])
  }

  /** `int(str(n)) == n`. */
  lemma {:induction false} ParseShowNat(n: nat)
    ensures ParseNat(ShowNat(n)) == n
  {
    if n >= 10 {
      var s := ShowNat(n);
      assert s[..|s| - 1] == ShowNat(n / 10);
      ParseShowNat(n / 10);
    }
  }

  // ---------------------------------------------------------------------------
  // `str.split`

  /**
    Splitting read left to right: the pieces a separator has closed, and
    the piece still open after the last separator.
  */
  function SplitOpen(s: string, c: char): (seq<string>, string) {
    if s == [] then ([], [])
    else
      var r := SplitOpen(s[..|s| - 1], c);
      if s[|s| - 1] == c then (r.0 + [r.1], []) else (r.0, r.1 + [s[|s| - 1]])
  }

  /** `s.split(c)`: the pieces between the separators, empty ones included. */
  function Split(s: string, c: char): seq<string> {
    SplitOpen(s, c).0 + [SplitOpen(s, c).1]
  }

  /** `c.join(parts)`. */
  function Join(parts: seq<string>, c: char): string {
    if parts == [] then []
    else if |parts| == 1 then parts[0]
    else Join(parts[..|parts| - 1], c) + [c] + parts[|parts| - 1]
  }

  /** No piece holds the separator. */
  predicate SepFree(parts: seq<string>, c: char) {
    forall i | 0 <= i < |parts| :: c !in parts[i]
  }

  /** Joining closed pieces and an open one. */
  lemma {:induction false} JoinSnoc(done: seq<string>, open: string, c: char)
    ensures Join(done + [open], c) == if done == [] then open else Join(done, c) + [c] + open
  {
    assert (done + [open])[..|done|] == done;
  }

  /** Splitting yields at least one piece, none holding the separator, and joining them gives the text back. */
  lemma {:induction false} SplitJoin(s: string, c: char)
    ensures |Split(s, c)| >= 1
    ensures SepFree(Split(s, c), c)
    ensures Join(Split(s, c), c) == s
  {
    SplitOpenJoin(s, c);
    var r := SplitOpen(s, c);
    JoinSnoc(r.0, r.1, c);
  }

  /** The closed pieces and the open one are separator-free and join back to the text. */
  lemma {:induction false} SplitOpenJoin(s: string, c: char)
    ensures SepFree(SplitOpen(s, c).0, c) && c !in SplitOpen(s, c).1
    ensures Join(SplitOpen(s, c).0 + [SplitOpen(s, c).1], c) == s
  {
    if s != [] {
      var t := s[..|s| - 1];
      var x := s[|s| - 1];
      SplitOpenJoin(t, c);
      var r := SplitOpen(t, c);
      JoinSnoc(r.0, r.1, c);
      if x == c {
        JoinSnoc(r.0 + [r.1], [], c);
      } else {
        JoinSnoc(r.0, r.1 + [x], c);
      }
      assert s == t + [x];
    }
  }

  /** A text without the separator is one open piece. */
  lemma {:induction false} SplitNoSep(s: string, c: char)
    requires c !in s
    ensures SplitOpen(s, c) == ([], s)
    ensures Split(s, c) == [s]
  {
    if s != [] {
      var t := s[..|s| - 1];
      assert s[|s| - 1] in s;
      assert forall k | 0 <= k < |t| :: t[k] == s[k];
      SplitNoSep(t, c);
      assert s == t + [s[|s| - 1]];
    }
  }

  /** Splitting at a separator splits the two sides independently. */
  lemma {:induction false} SplitAppend(a: string, b: string, c: char)
    ensures Split(a + [c] + b, c) == Split(a, c) + Split(b, c)
  {
    SplitOpenAppend(a, b, c);
  }

  /** After a separator, the open piece and the pieces closed since are those of the right side alone. */
  lemma {:induction false} SplitOpenAppend(a: string, b: string, c: char)
    ensures SplitOpen(a + [c] + b, c) == (Split(a, c) + SplitOpen(b, c).0, SplitOpen(b, c).1)
    decreases |b|
  {
    var w := a + [c] + b;
    if b == [] {
      assert w[..|w| - 1] == a && w[|w| - 1] == c;
      assert SplitOpen(b, c) == ([], []);
      assert Split(a, c) + [] == Split(a, c);
    } else {
      var r := SplitOpen(b[..|b| - 1], c);
      SplitOpenAppend(a, b[..|b| - 1], c);
      assert w[..|w| - 1] == a + [c] + b[..|b| - 1];
      assert w[|w| - 1] == b[|b| - 1];
      if b[|b| - 1] == c {
        assert Split(a, c) + r.0 + [r.1] == Split(a, c) + (r.0 + [r.1]);
      }
    }
  }

  /** Joining pieces free of the separator and splitting again gives the pieces back. */
  lemma {:induction false} JoinSplit(parts: seq<string>, c: char)
    requires |parts| >= 1
    requires SepFree(parts, c)
    ensures Split(Join(parts, c), c) == parts
  {
    if |parts| == 1 {
      SplitNoSep(parts[0], c);
    } else {
      var init := parts[..|parts| - 1];
      var last := parts[|parts| - 1];
      JoinSplit(init, c);
      SplitAppend(Join(init, c), last, c);
      SplitNoSep(last, c);
      assert parts == init + [last];
    }
  }
}
