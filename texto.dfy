/**
 * Character-level helpers used by the formatting, sorting and filtering rules: decimal digits,
 * zero padding, letter case and SQL LIKE matching.
 */
module Texto {
  import opened Decimal

  // ---------------------------------------------------------------------------------------------
  // Decimal digits

  predicate IsDigit(c: char)
  {
    '0' <= c <= '9'
  }

  predicate AllDigits(s: string)
  {
    forall i :: 0 <= i < |s| ==> IsDigit(s[i])
  }

  function DigitChar(d: int): (c: char)
    requires 0 <= d < 10
    ensures IsDigit(c)
  {
    ('0' as int + d) as char
  }

  /** The value of a digit character; other characters are never read as digits by the callers. */
  function DigitValue(c: char): (d: int)
    ensures IsDigit(c) ==> 0 <= d < 10
  {
    c as int - '0' as int
  }

  /** The base-ten form of n with no leading zeros, a single '0' for zero (Long.toString). */
  function Digits(n: nat): (s: string)
    ensures |s| >= 1 && AllDigits(s)
    ensures s[0] == '0' ==> n == 0
  {
    if n < 10 then [DigitChar(n)] else Digits(n / 10) + [DigitChar(n % 10)]
  }

  /** The number a string of digits denotes, read positionally. */
  function ParseDigits(s: string): int
  {
    if s == [] then 0 else ParseDigits(s[..|s| - 1]) * 10 + DigitValue(s[|s| - 1])
  }

  lemma {:induction false} ParseDigitsOfDigits(n: nat)
    ensures ParseDigits(Digits(n)) == n
  {
    if n >= 10 {
      var s := Digits(n);
      assert s[..|s| - 1] == Digits(n / 10);
      ParseDigitsOfDigits(n / 10);
    }
  }

  /** Digits read positionally: the left part counts 10^|b| times. */
  lemma {:induction false} ParseDigitsConcat(a: string, b: string)
    ensures ParseDigits(a + b) == ParseDigits(a) * Pow10(|b|) + ParseDigits(b)
  {
    if b != [] {
      var b' := b[..|b| - 1];
      var d := DigitValue(b[|b| - 1]);
      assert (a + b)[..|a + b| - 1] == a + b';
      ParseDigitsConcat(a, b');
      assert (a + b)[|a + b| - 1] == b[|b| - 1];
      assert ParseDigits(a + b) == ParseDigits(a + b') * 10 + d;
      assert ParseDigits(b) == ParseDigits(b') * 10 + d;
      assert Pow10(|b|) == 10 * Pow10(|b'|);
      Shift(ParseDigits(a), Pow10(|b'|), ParseDigits(b'), d);
    } else {
      assert a + b == a;
    }
  }

  /** Digits worth zero in front change nothing. */
  lemma LeadingZeros(a: string, b: string)
    requires ParseDigits(a) == 0
    ensures ParseDigits(a + b) == ParseDigits(b)
  {
    ParseDigitsConcat(a, b);
  }

  lemma Shift(x: int, p: int, y: int, d: int)
    ensures (x * p + y) * 10 + d == x * (10 * p) + (y * 10 + d)
  {
  }

  /** Digits(n) has at most k characters exactly when n < 10^k. */
  lemma {:induction false} DigitsLength(n: nat, k: nat)
    requires k >= 1
    ensures |Digits(n)| <= k <==> n < Pow10(k)
  {
    if n >= 10 {
      if k > 1 {
        DigitsLength(n / 10, k - 1);
      } else {
        assert |Digits(n)| >= 2;
      }
    }
  }

  function Repeat(c: char, k: nat): (r: string)
    ensures |r| == k && forall i :: 0 <= i < k ==> r[i] == c
  {
    seq(k, _ => c)
  }

  /** s preceded by enough copies of c to reach width characters. */
  function PadLeft(s: string, width: nat, c: char): (r: string)
    ensures |r| == if |s| >= width then |s| else width
    ensures r[|r| - |s|..] == s
    ensures forall i :: 0 <= i < |r| - |s| ==> r[i] == c
  {
    if |s| >= width then s else Repeat(c, width - |s|) + s
  }

  lemma {:induction false} ParseZeros(k: nat)
    ensures AllDigits(Repeat('0', k)) && ParseDigits(Repeat('0', k)) == 0
  {
    if k > 0 {
      assert Repeat('0', k)[..k - 1] == Repeat('0', k - 1);
      ParseZeros(k - 1);
    }
  }

  /** The digits of n, zero-padded on the left to at least width characters. */
  function Padded(n: nat, width: nat): (s: string)
    ensures AllDigits(s) && |s| >= width
  {
    PadLeft(Digits(n), width, '0')
  }

  /** Leading zeros do not change the number; when n < 10^width the width is exact. */
  lemma PaddedParses(n: nat, width: nat)
    ensures ParseDigits(Padded(n, width)) == n
    ensures width >= 1 && n < Pow10(width) ==> |Padded(n, width)| == width
  {
    var d := Digits(n);
    ParseDigitsOfDigits(n);
    if |d| < width {
      var z := Repeat('0', width - |d|);
      assert Padded(n, width) == z + d;
      ParseZeros(width - |d|);
      LeadingZeros(z, d);
    } else {
      assert Padded(n, width) == d;
    }
    if width >= 1 && n < Pow10(width) {
      DigitsLength(n, width);
    }
  }

  // ---------------------------------------------------------------------------------------------
  // Letter case (ASCII and Latin-1 letters)

  function Lower(c: char): char
  {
    if 'A' <= c <= 'Z' || ('À' <= c <= 'Þ' && c != '×') then
      (c as int + 32) as char
    else
      c
  }

  function LowerString(s: string): (r: string)
    ensures |r| == |s| && forall i :: 0 <= i < |s| ==> r[i] == Lower(s[i])
  {
    seq(|s|, i requires 0 <= i < |s| => Lower(s[i]))
  }

  lemma LowerStringConcat(a: string, b: string)
    ensures LowerString(a + b) == LowerString(a) + LowerString(b)
  {
  }

  /** String.equalsIgnoreCase, with case pairs limited to ASCII and Latin-1 letters. */
  predicate EqualsIgnoreCase(a: string, b: string)
  {
    LowerString(a) == LowerString(b)
  }

  // ---------------------------------------------------------------------------------------------
  // Substrings and SQL LIKE

  /** f occurs in s as a contiguous substring. */
  predicate Contains(s: string, f: string)
  {
    exists i :: 0 <= i <= |s| && f <= s[i..]
  }

  /**
   * f holds neither of LIKE's wildcards, nor the backslash that H2 takes
   * as LIKE's escape character when no ESCAPE clause is given.
   */
  predicate NoWildcards(f: string)
  {
    forall i :: 0 <= i < |f| ==> f[i] != '%' && f[i] != '_' && f[i] != '\\'
  }

  /** s LIKE p: '%' matches any run of characters, '_' any one character, the rest themselves. */
  predicate Like(s: string, p: string)
    decreases |s| + |p|
  {
    if p == [] then s == []
    else if p[0] == '%' then Like(s, p[1..]) || (s != [] && Like(s[1..], p))
    else if s == [] then false
    else (p[0] == '_' || p[0] == s[0]) && Like(s[1..], p[1..])
  }

  /** A trailing '%' matches anything. */
  lemma {:induction false} LikePercent(s: string)
    ensures Like(s, "%")
  {
    if s != [] {
      LikePercent(s[1..]);
    }
  }

  /** A literal pattern prefix must be a prefix of the subject. */
  lemma {:induction false} LikeLiteralPrefix(s: string, f: string, rest: string)
    requires NoWildcards(f)
    ensures Like(s, f + rest) <==> f <= s && Like(s[|f|..], rest)
  {
    if f != [] {
      assert (f + rest)[1..] == f[1..] + rest;
      assert (f + rest)[0] == f[0] && f[0] != '%' && f[0] != '_';
      if s != [] {
        LikeLiteralPrefix(s[1..], f[1..], rest);
        assert Like(s, f + rest) == (f[0] == s[0] && Like(s[1..], f[1..] + rest));
        assert f <= s <==> f[0] == s[0] && f[1..] <= s[1..];
        if f <= s {
          assert s[1..][|f| - 1..] == s[|f|..];
        }
      } else {
        assert !Like(s, f + rest);
      }
    } else {
      assert f + rest == rest;
      assert s[0..] == s;
    }
  }

  /** A leading '%' lets the rest of the pattern match any suffix. */
  lemma {:induction false} LikeLeadingPercent(s: string, p: string)
    ensures Like(s, ['%'] + p) <==> exists i :: 0 <= i <= |s| && Like(s[i..], p)
  {
    assert (['%'] + p)[1..] == p;
    if s == [] {
      assert s[0..] == s;
    } else {
      LikeLeadingPercent(s[1..], p);
      if exists i :: 0 <= i <= |s| && Like(s[i..], p) {
        var i :| 0 <= i <= |s| && Like(s[i..], p);
        if i > 0 {
          assert s[1..][i - 1..] == s[i..];
        } else {
          assert s[0..] == s;
        }
      }
      if exists j :: 0 <= j <= |s| - 1 && Like(s[1..][j..], p) {
        var j :| 0 <= j <= |s| - 1 && Like(s[1..][j..], p);
        assert s[1..][j..] == s[j + 1..];
      }
      assert s[0..] == s;
    }
  }

  /** For a wildcard-free filter, s LIKE '%' + f + '%' is exactly substring containment. */
  lemma LikeContains(s: string, f: string)
    requires NoWildcards(f)
    ensures Like(s, "%" + f + "%") <==> Contains(s, f)
  {
    assert "%" + f + "%" == ['%'] + (f + "%");
    LikeLeadingPercent(s, f + "%");
    forall i | 0 <= i <= |s|
      ensures Like(s[i..], f + "%") <==> f <= s[i..]
    {
      LikeLiteralPrefix(s[i..], f, "%");
      if f <= s[i..] {
        LikePercent(s[i..][|f|..]);
      }
    }
  }
}
