/** Character classes and the two string operations the validator uses:
    JavaScript's `String.prototype.trim` and `s.replace(/\D/g, '')`. */
module Text {

  /** JavaScript WhiteSpace or LineTerminator: the characters `trim` removes
      (TAB, LF, VT, FF, CR, SPACE, NBSP, the Unicode space separators,
      LINE/PARAGRAPH SEPARATOR and the byte-order mark). */
  predicate IsWs(c: char) {
    var n := c as int;
    || n == 0x09 || n == 0x0A || n == 0x0B || n == 0x0C || n == 0x0D
    || n == 0x20 || n == 0xA0 || n == 0x1680
    || (0x2000 <= n <= 0x200A)
    || n == 0x2028 || n == 0x2029 || n == 0x202F || n == 0x205F
    || n == 0x3000 || n == 0xFEFF
  }

  /** The regular-expression class `\d`: ASCII digits only. */
  predicate IsDigit(c: char) {
    '0' <= c <= '9'
  }

  /** Every character is whitespace; the empty string is blank. */
  predicate IsBlank(s: string) {
    forall i :: 0 <= i < |s| ==> IsWs(s[i])
  }

  /** Drops the leading whitespace. */
  function TrimStart(s: string): string
  {
    if |s| > 0 && IsWs(s[0]) then TrimStart(s[1..]) else s
  }

  /** Drops the trailing whitespace. */
  function TrimEnd(s: string): string
  {
    if |s| > 0 && IsWs(s[|s| - 1]) then TrimEnd(s[..|s| - 1]) else s
  }

  /** `TrimStart` returns the suffix of `s` that starts at the first
      non-whitespace character: everything before it is whitespace. */
  lemma {:induction false} TrimStartSpec(s: string)
    ensures |TrimStart(s)| <= |s| && TrimStart(s) == s[|s| - |TrimStart(s)|..]
    ensures forall i :: 0 <= i < |s| - |TrimStart(s)| ==> IsWs(s[i])
    ensures TrimStart(s) == [] || !IsWs(TrimStart(s)[0])
  {
    if |s| > 0 && IsWs(s[0]) {
      TrimStartSpec(s[1..]);
    }
  }

  /** `TrimEnd` returns the prefix of `s` that ends at the last
      non-whitespace character: everything after it is whitespace. */
  lemma {:induction false} TrimEndSpec(s: string)
    ensures |TrimEnd(s)| <= |s| && TrimEnd(s) == s[..|TrimEnd(s)|]
    ensures forall i :: |TrimEnd(s)| <= i < |s| ==> IsWs(s[i])
    ensures TrimEnd(s) == [] || !IsWs(TrimEnd(s)[|TrimEnd(s)| - 1])
  {
    if |s| > 0 && IsWs(s[|s| - 1]) {
      TrimEndSpec(s[..|s| - 1]);
    }
  }

  /** `s.trim()`. */
  function Trim(s: string): string
  {
    TrimEnd(TrimStart(s))
  }

  /** The trimmed string is empty exactly when `s` is blank, and otherwise
      neither starts nor ends with whitespace. */
  lemma TrimSpec(s: string)
    ensures |Trim(s)| <= |s|
    ensures Trim(s) == [] <==> IsBlank(s)
    ensures Trim(s) != [] ==> !IsWs(Trim(s)[0]) && !IsWs(Trim(s)[|Trim(s)| - 1])
  {
    TrimStartSpec(s);
    TrimEndSpec(TrimStart(s));
  }

  /** Number of ASCII digits in `s`. */
  function DigitCount(s: string): nat
  {
    if s == [] then 0 else (if IsDigit(s[0]) then 1 else 0) + DigitCount(s[1..])
  }

  /** Digits of a concatenation are the digits of both parts. */
  lemma {:induction false} DigitCountAppend(a: string, b: string)
    ensures DigitCount(a + b) == DigitCount(a) + DigitCount(b)
  {
    if a != [] {
      assert (a + b)[0] == a[0];
      assert (a + b)[1..] == a[1..] + b;
      DigitCountAppend(a[1..], b);
    } else {
      assert a + b == b;
    }
  }

  /** `s.replace(/\D/g, '')`: the digits of `s`, in order. Each digit keeps
      its multiplicity; every other character is gone. */
  function StripNonDigits(s: string): (r: string)
    ensures forall i :: 0 <= i < |r| ==> IsDigit(r[i])
    ensures |r| == DigitCount(s)
    ensures forall c :: IsDigit(c) ==> multiset(r)[c] == multiset(s)[c]
  {
    if s == [] then []
    else
      assert s == [s[0]] + s[1..];
      (if IsDigit(s[0]) then [s[0]] else []) + StripNonDigits(s[1..])
  }

  /** Stripping distributes over concatenation, so the digits keep the
      order they had in the input. */
  lemma {:induction false} StripNonDigitsAppend(a: string, b: string)
    ensures StripNonDigits(a + b) == StripNonDigits(a) + StripNonDigits(b)
  {
    if a == [] {
      assert a + b == b;
    } else {
      assert (a + b)[0] == a[0];
      assert (a + b)[1..] == a[1..] + b;
      StripNonDigitsAppend(a[1..], b);
    }
  }

  /** A string of digits only is its own digit string. */
  lemma {:induction false} StripNonDigitsOfDigits(s: string)
    requires forall i :: 0 <= i < |s| ==> IsDigit(s[i])
    ensures StripNonDigits(s) == s
  {
    if s != [] {
      StripNonDigitsOfDigits(s[1..]);
    }
  }

  /** `/^\d{10,}$/.test(x)`: ten or more characters, all digits. */
  predicate MatchesTenOrMoreDigits(x: string) {
    |x| >= 10 && forall i :: 0 <= i < |x| ==> IsDigit(x[i])
  }

  /** The contact format test of the validator: the digits of `s`, once the
      rest is stripped, match `^\d{10,}$`. It holds exactly when `s` holds
      at least ten digits, wherever they sit. */
  function HasPhoneFormat(s: string): (b: bool)
    ensures b <==> DigitCount(s) >= 10
  {
    MatchesTenOrMoreDigits(StripNonDigits(s))
  }

  /** A blank string holds no digit. */
  lemma {:induction false} BlankHasNoDigits(s: string)
    requires IsBlank(s)
    ensures DigitCount(s) == 0
  {
    if s != [] {
      assert IsBlank(s[1..]) by {
        forall i | 0 <= i < |s[1..]| ensures IsWs(s[1..][i]) {
          assert s[1..][i] == s[i + 1];
        }
      }
      BlankHasNoDigits(s[1..]);
    }
  }

  /** A string that starts with a non-whitespace character is not blank. */
  lemma StartsNonBlank(s: string)
    requires |s| > 0 && !IsWs(s[0])
    ensures !IsBlank(s)
  {
  }

  /** In a string of digits only, every character counts. */
  lemma AllDigitsCount(s: string)
    requires forall i :: 0 <= i < |s| ==> IsDigit(s[i])
    ensures DigitCount(s) == |s|
  {
    StripNonDigitsOfDigits(s);
  }

  /** "555-1234" holds seven digits. */
  lemma SevenDigits(c: string)
    requires c == "555-1234"
    ensures c != "" && DigitCount(c) == 7
  {
    assert c == "555" + "-" + "1234";
    DigitCountAppend("555" + "-", "1234");
    DigitCountAppend("555", "-");
    AllDigitsCount("555");
    AllDigitsCount("1234");
  }
}
