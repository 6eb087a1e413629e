/** Strings as the browser sees them: JavaScript string ordering, `String.prototype.trim`,
    and the fixed-width decimal digit runs used by `YYYY-MM-DD` dates. */
module Text {

  /* ---------------- JavaScript string ordering ---------------- */

  /** JavaScript `a < b` on strings: lexicographic on characters, a proper prefix is smaller. */
  predicate LexLess(a: string, b: string)
    decreases |a|
  {
    if |a| == 0 then |b| > 0
    else if |b| == 0 then false
    else if a[0] != b[0] then a[0] < b[0]
    else LexLess(a[1..], b[1..])
  }

  /** JavaScript `a <= b` on strings, which ECMAScript evaluates as `!(b < a)`. */
  predicate LexLe(a: string, b: string) {
    !LexLess(b, a)
  }

  lemma {:induction false} LexLessIrreflexive(a: string)
    ensures !LexLess(a, a)
    decreases |a|
  {
    if |a| > 0 {
      LexLessIrreflexive(a[1..]);
    }
  }

  lemma {:induction false} LexLessAsymmetric(a: string, b: string)
    ensures LexLess(a, b) ==> !LexLess(b, a)
    decreases |a|
  {
    if |a| > 0 && |b| > 0 && a[0] == b[0] {
      LexLessAsymmetric(a[1..], b[1..]);
    }
  }

  lemma {:induction false} LexLessTransitive(a: string, b: string, c: string)
    requires LexLess(a, b) && LexLess(b, c)
    ensures LexLess(a, c)
    decreases |a|
  {
    if |a| > 0 && a[0] == b[0] && b[0] == c[0] {
      LexLessTransitive(a[1..], b[1..], c[1..]);
    }
  }

  lemma {:induction false} LexLessTotal(a: string, b: string)
    ensures a == b || LexLess(a, b) || LexLess(b, a)
    decreases |a|
  {
    if |a| > 0 && |b| > 0 && a[0] == b[0] {
      LexLessTotal(a[1..], b[1..]);
      if a[1..] == b[1..] {
        assert a == [a[0]] + a[1..] && b == [b[0]] + b[1..];
      }
    }
  }

  /** Comparing two concatenations whose first parts have equal length compares the
      first parts, and only on a tie the second parts. */
  lemma {:induction false} LexLessConcat(a1: string, b1: string, a2: string, b2: string)
    requires |a1| == |a2|
    ensures LexLess(a1 + b1, a2 + b2) <==> LexLess(a1, a2) || (a1 == a2 && LexLess(b1, b2))
    decreases |a1|
  {
    if |a1| == 0 {
      assert a1 + b1 == b1 && a2 + b2 == b2;
    } else {
      assert (a1 + b1)[0] == a1[0] && (a2 + b2)[0] == a2[0];
      assert (a1 + b1)[1..] == a1[1..] + b1;
      assert (a2 + b2)[1..] == a2[1..] + b2;
      LexLessConcat(a1[1..], b1, a2[1..], b2);
      if a1[0] == a2[0] && a1[1..] == a2[1..] {
        assert a1 == [a1[0]] + a1[1..] && a2 == [a2[0]] + a2[1..];
      }
      if a1 == a2 {
        assert a1[1..] == a2[1..];
      }
    }
  }

  /* ---------------- Whitespace and trim ---------------- */

  /** The characters `String.prototype.trim` strips: ECMAScript WhiteSpace and LineTerminator. */
  predicate IsJsWhitespace(c: char) {
    || c == '\t' || c == '\n' || c == '\U{000B}' || c == '\U{000C}' || c == '\r' || c == ' '
    || c == '\U{00A0}' || c == '\U{1680}' || ('\U{2000}' <= c <= '\U{200A}')
    || c == '\U{2028}' || c == '\U{2029}' || c == '\U{202F}' || c == '\U{205F}'
    || c == '\U{3000}' || c == '\U{FEFF}'
  }

  predicate AllWhitespace(s: string) {
    forall i :: 0 <= i < |s| ==> IsJsWhitespace(s[i])
  }

  /** Index of the first non-whitespace character (|s| when there is none). */
  function TrimStartIndex(s: string): (i: nat)
    ensures i <= |s|
    ensures AllWhitespace(s[..i])
    ensures i < |s| ==> !IsJsWhitespace(s[i])
    decreases |s|
  {
    if |s| == 0 || !IsJsWhitespace(s[0]) then 0
    else
      var k := TrimStartIndex(s[1..]);
      assert s[1..][..k] == s[1..k + 1];
      1 + k
  }

  /** One past the last non-whitespace character (0 when there is none). */
  function TrimEndIndex(s: string): (j: nat)
    ensures j <= |s|
    ensures AllWhitespace(s[j..])
    ensures j > 0 ==> !IsJsWhitespace(s[j - 1])
    decreases |s|
  {
    if |s| == 0 || !IsJsWhitespace(s[|s| - 1]) then |s|
    else
      var p := s[..|s| - 1];
      var j := TrimEndIndex(p);
      assert s[j..] == p[j..] + [s[|s| - 1]];
      AllWhitespaceConcat(p[j..], [s[|s| - 1]]);
      j
  }

  /** `s.trim()`. */
  function Trim(s: string): (r: string)
    ensures exists i, j :: 0 <= i <= j <= |s| && r == s[i..j] && AllWhitespace(s[..i]) && AllWhitespace(s[j..])
    ensures |r| > 0 ==> !IsJsWhitespace(r[0]) && !IsJsWhitespace(r[|r| - 1])
    ensures |r| == 0 <==> AllWhitespace(s)
  {
    var i := TrimStartIndex(s);
    var j := i + TrimEndIndex(s[i..]);
    TrimBounds(s, i, j);
    s[i..j]
  }

  /** The two trim indexes cut off whitespace only, and meet exactly on all-whitespace text. */
  lemma TrimBounds(s: string, i: nat, j: nat)
    requires i == TrimStartIndex(s) && j == i + TrimEndIndex(s[i..])
    ensures i <= j <= |s|
    ensures AllWhitespace(s[..i]) && AllWhitespace(s[j..])
    ensures i < j ==> !IsJsWhitespace(s[i]) && !IsJsWhitespace(s[j - 1])
    ensures i == j <==> AllWhitespace(s)
  {
    WhitespaceSuffix(s, i, TrimEndIndex(s[i..]));
    if i < j {
      TrimLastKept(s, i, j);
    }
    TrimEmpty(s, i, j);
  }

  /** Whitespace after position `k` of `s[i..]` is whitespace after `i + k` in `s`. */
  lemma WhitespaceSuffix(s: string, i: nat, k: nat)
    requires i + k <= |s| && AllWhitespace(s[i..][k..])
    ensures AllWhitespace(s[i + k..])
  {
    var u := s[i + k..];
    forall n | 0 <= n < |u|
      ensures IsJsWhitespace(u[n])
    {
      assert u[n] == s[i..][k..][n];
    }
  }

  /** The last character `trim` keeps is not whitespace. */
  lemma TrimLastKept(s: string, i: nat, j: nat)
    requires i <= |s| && j == i + TrimEndIndex(s[i..]) && i < j
    ensures !IsJsWhitespace(s[j - 1])
  {
    assert s[j - 1] == s[i..][j - i - 1];
  }

  /** `trim` keeps nothing exactly when the text is all whitespace. */
  lemma TrimEmpty(s: string, i: nat, j: nat)
    requires i == TrimStartIndex(s) && j == i + TrimEndIndex(s[i..])
    ensures i == j <==> AllWhitespace(s)
  {
    if i == j {
      var t := s[i..];
      assert t[0..] == t;
      AllWhitespaceConcat(s[..i], t);
      assert s[..i] + t == s;
    }
    if AllWhitespace(s) && i < |s| {
      assert false;
    }
  }

  lemma AllWhitespaceConcat(a: string, b: string)
    ensures AllWhitespace(a + b) <==> AllWhitespace(a) && AllWhitespace(b)
  {
    if AllWhitespace(a) && AllWhitespace(b) {
      forall n | 0 <= n < |a + b|
        ensures IsJsWhitespace((a + b)[n])
      {
        if n >= |a| {
          assert (a + b)[n] == b[n - |a|];
        }
      }
    }
    if AllWhitespace(a + b) {
      forall n | 0 <= n < |a|
        ensures IsJsWhitespace(a[n])
      {
        assert (a + b)[n] == a[n];
      }
      forall n | 0 <= n < |b|
        ensures IsJsWhitespace(b[n])
      {
        assert (a + b)[|a| + n] == b[n];
      }
    }
  }

  /* ---------------- UTF-16 length ---------------- */

  /** Code units a character takes in UTF-16: two (a surrogate pair) outside the Basic
      Multilingual Plane, one inside it. */
  function Utf16Units(c: char): nat {
    if c as int >= 0x1_0000 then 2 else 1
  }

  /** `s.length` in JavaScript: the number of UTF-16 code units. */
  function Utf16Length(s: string): (n: nat)
    ensures |s| <= n <= 2 * |s|
    decreases |s|
  {
    if |s| == 0 then 0 else Utf16Units(s[0]) + Utf16Length(s[1..])
  }

  predicate InBasicPlane(s: string) {
    forall i :: 0 <= i < |s| ==> s[i] as int < 0x1_0000
  }

  /** The UTF-16 length is the character count exactly when no character needs a surrogate
      pair. */
  lemma {:induction false} Utf16LengthBasicPlane(s: string)
    ensures Utf16Length(s) == |s| <==> InBasicPlane(s)
    decreases |s|
  {
    if |s| > 0 {
      Utf16LengthBasicPlane(s[1..]);
      assert InBasicPlane(s) <==> s[0] as int < 0x1_0000 && InBasicPlane(s[1..]) by {
        if InBasicPlane(s[1..]) && s[0] as int < 0x1_0000 {
          forall i | 0 <= i < |s|
            ensures s[i] as int < 0x1_0000
          {
            if i > 0 { assert s[i] == s[1..][i - 1]; }
          }
        }
      }
    }
  }

  /* ---------------- Decimal digits ---------------- */

  function Pow10(n: nat): (r: nat)
    ensures r >= 1
  {
    if n == 0 then 1 else 10 * Pow10(n - 1)
  }

  predicate IsDigit(c: char) {
    '0' <= c <= '9'
  }

  predicate AllDigits(s: string) {
    forall i :: 0 <= i < |s| ==> IsDigit(s[i])
  }

  function Digit(n: nat): (c: char)
    requires n < 10
    ensures IsDigit(c)
  {
    ('0' as int + n) as char
  }

  function DigitValue(c: char): (n: nat)
    requires IsDigit(c)
    ensures n < 10 && Digit(n) == c
  {
    c as int - '0' as int
  }

  /** `n` written with exactly `width` decimal digits, zero-padded on the left
      (the digits of `n % 10^width`). */
  function PadDigits(n: nat, width: nat): (s: string)
    ensures |s| == width && AllDigits(s)
  {
    if width == 0 then [] else PadDigits(n / 10, width - 1) + [Digit(n % 10)]
  }

  /** The value of a run of decimal digits, as JavaScript `Number` reads it. */
  function DigitsValue(s: string): (n: nat)
    requires AllDigits(s)
    ensures n < Pow10(|s|)
  {
    if |s| == 0 then 0 else DigitsValue(s[..|s| - 1]) * 10 + DigitValue(s[|s| - 1])
  }

  /** The value of a two-digit run, digit by digit. */
  lemma DigitsValue2(t: string)
    requires |t| == 2 && AllDigits(t)
    ensures DigitsValue(t) == 10 * DigitValue(t[0]) + DigitValue(t[1])
  {
    assert t[..1] == [t[0]] && t[..1][..0] == [];
  }

  /** The value of a four-digit run, digit by digit. */
  lemma DigitsValue4(t: string)
    requires |t| == 4 && AllDigits(t)
    ensures DigitsValue(t) == 1000 * DigitValue(t[0]) + 100 * DigitValue(t[1]) + 10 * DigitValue(t[2]) + DigitValue(t[3])
  {
    var t3 := t[..3];
    assert t3[..2] == t[..2];
    DigitsValue2(t[..2]);
    assert DigitsValue(t3) == 10 * DigitsValue(t[..2]) + DigitValue(t[2]);
  }

  /** Reading back a padded number gives the number. */
  lemma {:induction false} PadDigitsRoundTrip(n: nat, width: nat)
    requires n < Pow10(width)
    ensures DigitsValue(PadDigits(n, width)) == n
  {
    if width > 0 {
      var s := PadDigits(n, width);
      assert s[..|s| - 1] == PadDigits(n / 10, width - 1);
      PadDigitsRoundTrip(n / 10, width - 1);
    }
  }

  /** Padding the value of a digit run to its own width gives the run back. */
  lemma {:induction false} DigitsValueRoundTrip(s: string)
    requires AllDigits(s)
    ensures PadDigits(DigitsValue(s), |s|) == s
  {
    if |s| > 0 {
      var p := s[..|s| - 1];
      var n := DigitsValue(s);
      assert n / 10 == DigitsValue(p) && n % 10 == DigitValue(s[|s| - 1]);
      DigitsValueRoundTrip(p);
      assert s == p + [s[|s| - 1]];
    }
  }

  /** Equal-width padded numbers compare as strings exactly as the numbers compare. */
  lemma {:induction false} PadDigitsOrder(a: nat, b: nat, width: nat)
    requires a < Pow10(width) && b < Pow10(width)
    ensures LexLess(PadDigits(a, width), PadDigits(b, width)) <==> a < b
  {
    if width == 0 {
    } else {
      var pa, pb := PadDigits(a / 10, width - 1), PadDigits(b / 10, width - 1);
      PadDigitsOrder(a / 10, b / 10, width - 1);
      LexLessConcat(pa, [Digit(a % 10)], pb, [Digit(b % 10)]);
      PadDigitsRoundTrip(a / 10, width - 1);
      PadDigitsRoundTrip(b / 10, width - 1);
      assert pa == pb <==> a / 10 == b / 10;
    }
  }

  /** Decimal text of a natural number, without leading zeros (JavaScript `String(n)`). */
  function NatText(n: nat): (s: string)
    ensures |s| >= 1 && AllDigits(s)
    ensures |s| > 1 ==> s[0] != '0'
    ensures DigitsValue(s) == n
    decreases n
  {
    if n < 10 then [Digit(n)]
    else
      var p := NatText(n / 10);
      var s := p + [Digit(n % 10)];
      assert s[..|s| - 1] == p;
      s
  }

  /** Decimal text of an integer, with a leading `-` when negative. */
  function IntText(n: int): (s: string)
    ensures n < 0 <==> (|s| > 0 && s[0] == '-')
  {
    if n < 0 then "-" + NatText(-n) else NatText(n)
  }
}
