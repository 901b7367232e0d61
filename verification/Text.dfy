/** Facts about sequences and plain text that several components share. */
module Text {

  lemma SplitLast<T>(s: seq<T>)
    requires s != []
    ensures s == s[..|s| - 1] + [s[|s| - 1]]
  {
  }

  lemma AppendLast<T>(s: seq<T>, more: seq<T>)
    requires more != []
    ensures s + more == (s + more[..|more| - 1]) + [more[|more| - 1]]
  {
    SplitLast(more);
  }

  /** Text before the first occurrence of a separator is determined by the whole. */
  lemma SplitUnique(a: string, b: string, c: string, d: string, sep: char)
    requires sep !in a && sep !in c
    requires a + [sep] + b == c + [sep] + d
    ensures a == c && b == d
  {
    var s, t := a + [sep] + b, c + [sep] + d;
    assert s[|a|] == sep && t[|c|] == sep;
    assert |a| == |c|;
    assert s[..|a|] == a && t[..|c|] == c;
    assert s[|a| + 1..] == b && t[|c| + 1..] == d;
  }

  const DIGITS := "0123456789"

  /** `str(n)` */
  function Decimal(n: nat): string {
    if n < 10 then [DIGITS[n]] else Decimal(n / 10) + [DIGITS[n % 10]]
  }

  lemma DigitDistinct(i: nat, j: nat)
    requires i < 10 && j < 10 && DIGITS[i] == DIGITS[j]
    ensures i == j
  {
  }

  lemma {:induction false} DecimalInjective(n: nat, m: nat)
    requires Decimal(n) == Decimal(m)
    ensures n == m
  {
    var a, b := Decimal(n), Decimal(m);
    assert a[|a| - 1] == DIGITS[n % 10] && b[|b| - 1] == DIGITS[m % 10];
    DigitDistinct(n % 10, m % 10);
    if n >= 10 && m >= 10 {
      assert a[..|a| - 1] == Decimal(n / 10) && b[..|b| - 1] == Decimal(m / 10);
      DecimalInjective(n / 10, m / 10);
    }
  }

  lemma {:induction false} DecimalHasNo(n: nat, c: char)
    requires c !in DIGITS
    ensures c !in Decimal(n)
  {
    if n >= 10 {
      DecimalHasNo(n / 10, c);
    }
  }

  /** The characters of path-safe names. */
  predicate IsSafeChar(c: char) {
    'A' <= c <= 'Z' || 'a' <= c <= 'z' || '0' <= c <= '9' || c == '_' || c == '.' || c == '-'
  }

  predicate IsHexDigit(c: char) {
    '0' <= c <= '9' || 'a' <= c <= 'f'
  }

  predicate IsHex(s: string, n: nat) {
    |s| == n && forall i :: 0 <= i < |s| ==> IsHexDigit(s[i])
  }

  // ----- the characters one by one

  lemma UpperMeans(c: char)
    ensures 'A' <= c <= 'Z' <==> c in "ABCDEFGHIJKLMNOPQRSTUVWXYZ"
  {
    var upper := "ABCDEFGHIJKLMNOPQRSTUVWXYZ";
    if 'A' <= c <= 'Z' {
      assert upper[c as int - 'A' as int] == c;
    }
  }

  lemma LowerMeans(c: char)
    ensures 'a' <= c <= 'z' <==> c in "abcdefghijklmnopqrstuvwxyz"
  {
    var lower := "abcdefghijklmnopqrstuvwxyz";
    if 'a' <= c <= 'z' {
      assert lower[c as int - 'a' as int] == c;
    }
  }

  lemma DigitMeans(c: char)
    ensures '0' <= c <= '9' <==> c in "0123456789"
  {
    var digits := "0123456789";
    if '0' <= c <= '9' {
      assert digits[c as int - '0' as int] == c;
    }
  }

  predicate SafeChar(c: char) {
    || c in "ABCDEFGHIJKLMNOPQRSTUVWXYZ"
    || c in "abcdefghijklmnopqrstuvwxyz"
    || c in "0123456789"
    || c in "_.-"
  }

  lemma SafeCharIff(c: char)
    ensures IsSafeChar(c) <==> SafeChar(c)
  {
    var marks := "_.-";
    assert marks[0] == '_' && marks[1] == '.' && marks[2] == '-';
    UpperMeans(c);
    LowerMeans(c);
    DigitMeans(c);
  }

  /** A hash is written in 64 lower-case hexadecimal digits. */
  lemma HexIff(s: string, n: nat)
    ensures IsHex(s, n) <==> |s| == n && forall i :: 0 <= i < |s| ==> s[i] in "0123456789" || s[i] in "abcdef"
  {
    forall i | 0 <= i < |s| ensures IsHexDigit(s[i]) <==> s[i] in "0123456789" || s[i] in "abcdef" {
      DigitMeans(s[i]);
      SixMeans(s[i]);
    }
  }

  lemma SixMeans(c: char)
    ensures 'a' <= c <= 'f' <==> c in "abcdef"
  {
    var six := "abcdef";
    if 'a' <= c <= 'f' {
      assert six[c as int - 'a' as int] == c;
    }
  }
}
