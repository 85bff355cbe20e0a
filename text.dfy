/** String helpers shared by the services and the view model: the ASCII
    approximation of .NET's ordinal case folding, the blank tests of
    `string.IsNullOrWhiteSpace`, `TrimStart('.')`, `string.Join`, the
    case-insensitive `Replace(sub, "")`, and the integer formatting and
    `uint.TryParse` that the tag year goes through. */
module Text {

  /** Upper bound (exclusive) of a C# `uint`. */
  const UintLimit: int := 0x1_0000_0000

  type uint32 = x: int | 0 <= x < UintLimit

  /** A C# `int`. */
  type int32 = x: int | -0x8000_0000 <= x < 0x8000_0000

  datatype Option<T> = None | Some(value: T)

  // ---------------------------------------------------------------------
  // Case folding (ASCII only)

  function LowerChar(c: char): (r: char)
    ensures 'A' <= c <= 'Z' ==> r as int == c as int + 32
    ensures !('A' <= c <= 'Z') ==> r == c
  {
    if 'A' <= c <= 'Z' then (c as int + 32) as char else c
  }

  /** `ToLowerInvariant`, restricted to ASCII letters. */
  function Lower(s: string): (r: string)
    ensures |r| == |s|
    ensures forall i :: 0 <= i < |s| ==> r[i] == LowerChar(s[i])
  {
    seq(|s|, i requires 0 <= i < |s| => LowerChar(s[i]))
  }

  lemma LowerIdempotent(s: string)
    ensures Lower(Lower(s)) == Lower(s)
  {
  }

  /** `string.Equals(a, b, StringComparison.OrdinalIgnoreCase)`. */
  predicate EqualsIgnoreCase(a: string, b: string)
  {
    Lower(a) == Lower(b)
  }

  // ---------------------------------------------------------------------
  // Blank tests

  /** `char.IsWhiteSpace`: the Unicode white-space characters. */
  predicate IsWhiteSpace(c: char)
  {
    ('\U{9}' <= c <= '\U{D}') || c == ' ' || c == '\U{85}' || c == '\U{A0}'
    || c == '\U{1680}' || ('\U{2000}' <= c <= '\U{200A}') || c == '\U{2028}'
    || c == '\U{2029}' || c == '\U{202F}' || c == '\U{205F}' || c == '\U{3000}'
  }

  /** `string.IsNullOrWhiteSpace` (a C# null string is modelled as ""). */
  predicate IsBlank(s: string)
  {
    forall i :: 0 <= i < |s| ==> IsWhiteSpace(s[i])
  }

  // ---------------------------------------------------------------------
  // TrimStart('.'), EndsWith, Join

  /** `s.TrimStart('.')`: drops every leading dot. */
  function TrimLeadingDots(s: string): (r: string)
    ensures |r| <= |s| && r == s[|s| - |r|..]
    ensures |r| > 0 ==> r[0] != '.'
    ensures forall i :: 0 <= i < |s| - |r| ==> s[i] == '.'
  {
    if |s| > 0 && s[0] == '.' then TrimLeadingDots(s[1..]) else s
  }

  lemma {:induction false} TrimLeadingDotsOfLower(s: string)
    ensures TrimLeadingDots(Lower(s)) == Lower(TrimLeadingDots(s))
  {
    if |s| > 0 && s[0] == '.' {
      assert Lower(s)[1..] == Lower(s[1..]);
      TrimLeadingDotsOfLower(s[1..]);
    }
  }

  predicate EndsWith(s: string, suffix: string)
  {
    |suffix| <= |s| && s[|s| - |suffix|..] == suffix
  }

  /** `string.Join(sep, parts)`. */
  function Join(sep: string, parts: seq<string>): (r: string)
    ensures parts == [] ==> r == ""
    ensures |parts| == 1 ==> r == parts[0]
  {
    if |parts| == 0 then ""
    else if |parts| == 1 then parts[0]
    else parts[0] + sep + Join(sep, parts[1..])
  }

  // ---------------------------------------------------------------------
  // s.Replace(sub, "", StringComparison.OrdinalIgnoreCase)

  /** True when `sub` occurs, ignoring case, at position `i` of `s`. */
  predicate OccursAt(s: string, sub: string, i: nat)
  {
    i + |sub| <= |s| && EqualsIgnoreCase(s[i..i + |sub|], sub)
  }

  /** Removes the non-overlapping case-insensitive occurrences of `sub`,
      scanning left to right, as `Replace(sub, "", OrdinalIgnoreCase)`
      does for a non-empty `sub`. */
  function RemoveIgnoreCase(s: string, sub: string): (r: string)
    requires |sub| > 0
    ensures |r| <= |s|
    decreases |s|
  {
    if |s| < |sub| then s
    else if OccursAt(s, sub, 0) then RemoveIgnoreCase(s[|sub|..], sub)
    else [s[0]] + RemoveIgnoreCase(s[1..], sub)
  }

  lemma {:induction false} RemoveIgnoreCaseNoOccurrence(s: string, sub: string)
    requires |sub| > 0
    requires forall i: nat :: i < |s| ==> !OccursAt(s, sub, i)
    ensures RemoveIgnoreCase(s, sub) == s
    decreases |s|
  {
    if |s| >= |sub| {
      assert !OccursAt(s, sub, 0);
      forall i: nat | i < |s[1..]| ensures !OccursAt(s[1..], sub, i) {
        if i + |sub| <= |s[1..]| {
          assert s[1..][i..i + |sub|] == s[i + 1..i + 1 + |sub|];
          assert !OccursAt(s, sub, i + 1);
        }
      }
      RemoveIgnoreCaseNoOccurrence(s[1..], sub);
    }
  }

  /** A string made of `n` copies of `sub` (in any case) disappears. */
  lemma {:induction false} RemoveIgnoreCaseRepeated(sub: string, n: nat)
    requires |sub| > 0
    ensures RemoveIgnoreCase(Repeat(sub, n), sub) == ""
  {
    if n > 0 {
      var s := Repeat(sub, n);
      assert s[..|sub|] == sub && s[|sub|..] == Repeat(sub, n - 1);
      assert OccursAt(s, sub, 0);
      RemoveIgnoreCaseRepeated(sub, n - 1);
    }
  }

  function Repeat(s: string, n: nat): (r: string)
    ensures |r| == n * |s|
  {
    if n == 0 then "" else s + Repeat(s, n - 1)
  }

  // ---------------------------------------------------------------------
  // Decimal formatting (int.ToString / uint.ToString)

  function DigitChar(d: int): (c: char)
    requires 0 <= d < 10
    ensures '0' <= c <= '9' && c as int - '0' as int == d
  {
    ('0' as int + d) as char
  }

  /** Decimal text of `n`, without sign or leading zeros. */
  function NatToString(n: nat): (r: string)
    ensures |r| > 0
    ensures AllDigits(r)
    ensures DigitsValue(r) == n
    ensures r[0] == '0' ==> n == 0
    decreases n
  {
    if n < 10 then [DigitChar(n)]
    else
      var prefix := NatToString(n / 10);
      var r := prefix + [DigitChar(n % 10)];
      assert r[..|r| - 1] == prefix;
      r
  }

  /** `int.ToString()` under the invariant culture. */
  function IntToString(n: int): (r: string)
    ensures |r| > 0
    ensures n < 0 <==> r[0] == '-'
  {
    if n < 0 then "-" + NatToString(-n) else NatToString(n)
  }

  // ---------------------------------------------------------------------
  // uint.TryParse with NumberStyles.Integer

  predicate IsDigit(c: char) { '0' <= c <= '9' }

  predicate AllDigits(s: string)
  {
    forall i :: 0 <= i < |s| ==> IsDigit(s[i])
  }

  /** Value of a run of decimal digits, most significant first. */
  function DigitsValue(s: string): (v: nat)
    requires AllDigits(s)
  {
    if |s| == 0 then 0
    else DigitsValue(s[..|s| - 1]) * 10 + (s[|s| - 1] as int - '0' as int)
  }

  /** The white space NumberStyles.AllowLeadingWhite/AllowTrailingWhite accept. */
  predicate IsNumberWhite(c: char)
  {
    c == ' ' || ('\U{9}' <= c <= '\U{D}')
  }

  function TrimNumberWhite(s: string): (r: string)
    ensures |r| <= |s|
    ensures |r| > 0 ==> !IsNumberWhite(r[0]) && !IsNumberWhite(r[|r| - 1])
    ensures (forall i :: 0 <= i < |s| ==> !IsNumberWhite(s[i])) ==> r == s
    decreases |s|
  {
    if |s| > 0 && IsNumberWhite(s[0]) then TrimNumberWhite(s[1..])
    else if |s| > 0 && IsNumberWhite(s[|s| - 1]) then TrimNumberWhite(s[..|s| - 1])
    else s
  }

  /** `uint.TryParse(s, out y)`: optional surrounding white space, an
      optional '+' or '-' sign (a negative sign only parses a zero value),
      then at least one digit, and a value below 2^32. */
  function ParseUint(s: string): (r: Option<uint32>)
    ensures r.Some? ==> exists d :: |d| > 0 && AllDigits(d) && DigitsValue(d) == r.value
  {
    var t := TrimNumberWhite(s);
    var negative := |t| > 0 && t[0] == '-';
    var digits := if |t| > 0 && (t[0] == '+' || t[0] == '-') then t[1..] else t;
    if |digits| == 0 || !AllDigits(digits) then None
    else
      var v := DigitsValue(digits);
      if v >= UintLimit then None
      else if negative && v != 0 then None
      else Some(v)
  }

  /** The text `uint.ToString()` produces parses back to the same value. */
  lemma ParseUintOfToString(n: uint32)
    ensures ParseUint(NatToString(n)) == Some(n)
  {
    var s := NatToString(n);
    assert forall i :: 0 <= i < |s| ==> !IsNumberWhite(s[i]);
    assert TrimNumberWhite(s) == s;
  }

  /** Text with a character other than a digit, a sign or white space never parses. */
  lemma ParseUintRejectsLetters(s: string, i: nat)
    requires i < |s| && !IsDigit(s[i]) && !IsNumberWhite(s[i]) && s[i] != '+' && s[i] != '-'
    ensures ParseUint(s) == None
  {
    TrimKeepsNonWhite(s, i);
  }

  lemma {:induction false} TrimKeepsNonWhite(s: string, i: nat)
    requires i < |s| && !IsNumberWhite(s[i])
    ensures exists j :: 0 <= j < |TrimNumberWhite(s)| && TrimNumberWhite(s)[j] == s[i]
    decreases |s|
  {
    if |s| > 0 && IsNumberWhite(s[0]) {
      assert i > 0 && s[1..][i - 1] == s[i];
      TrimKeepsNonWhite(s[1..], i - 1);
      assert TrimNumberWhite(s) == TrimNumberWhite(s[1..]);
    } else if |s| > 0 && IsNumberWhite(s[|s| - 1]) {
      assert i < |s| - 1 && s[..|s| - 1][i] == s[i];
      TrimKeepsNonWhite(s[..|s| - 1], i);
      assert TrimNumberWhite(s) == TrimNumberWhite(s[..|s| - 1]);
    } else {
      assert TrimNumberWhite(s)[i] == s[i];
    }
  }
}
