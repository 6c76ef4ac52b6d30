/** Byte strings as the C code sees them: text with NUL-terminated views,
    decimal printing, and the string facts every other module relies on. */
module Text {

  datatype Option<+T> = None | Some(value: T)

  const NUL: char := '\0'

  predicate Free(s: string, bad: set<char>) {
    forall i :: 0 <= i < |s| ==> s[i] !in bad
  }

  predicate NulFree(s: string) {
    NUL !in s
  }

  /** The C string held by a buffer: everything before the first NUL. */
  function CStr(s: string): string {
    if s == "" || s[0] == NUL then "" else [s[0]] + CStr(s[1..])
  }

  lemma {:induction false} CStrNulFree(s: string)
    requires NulFree(s)
    ensures CStr(s) == s
  {
    if s != "" {
      CStrNulFree(s[1..]);
    }
  }

  /** Only a NUL-free buffer reads as a C string of its own length. */
  lemma {:induction false} CStrShorter(s: string)
    ensures CStr(s) <= s && NulFree(CStr(s))
    ensures !NulFree(s) ==> |CStr(s)| < |s|
  {
    if s != "" && s[0] != NUL {
      CStrShorter(s[1..]);
    }
  }

  lemma {:induction false} CStrTerminated(s: string, rest: string)
    requires NulFree(s)
    ensures CStr(s + [NUL] + rest) == s
  {
    var t := s + [NUL] + rest;
    if s != "" {
      assert t[0] == s[0] && t[1..] == s[1..] + [NUL] + rest;
      CStrTerminated(s[1..], rest);
    }
  }

  function Flatten<T>(parts: seq<seq<T>>): seq<T> {
    if parts == [] then [] else parts[0] + Flatten(parts[1..])
  }

  /** `%d` for a non-negative number. */
  function Decimal(n: nat): (s: string)
    ensures |s| > 0 && Digits(s)
  {
    if n < 10 then [DigitChar(n)] else Decimal(n / 10) + [DigitChar(n % 10)]
  }

  function DigitChar(d: nat): (c: char)
    requires d < 10
    ensures '0' <= c <= '9' && c as int - '0' as int == d
  {
    '0' + d as char
  }

  predicate Digits(s: string) {
    forall i :: 0 <= i < |s| ==> '0' <= s[i] <= '9'
  }

  /** `atoi` on the leading digits of a string. */
  function Atoi(s: string): nat {
    AtoiFrom(s, 0)
  }

  function AtoiFrom(s: string, acc: nat): nat {
    if s == "" || !('0' <= s[0] <= '9') then acc
    else AtoiFrom(s[1..], 10 * acc + (s[0] as int - '0' as int))
  }

  lemma {:induction false} AtoiAppend(s: string, t: string, acc: nat)
    requires Digits(s)
    ensures AtoiFrom(s + t, acc) == AtoiFrom(t, AtoiFrom(s, acc))
  {
    if s == "" {
      assert s + t == t;
    } else {
      assert (s + t)[1..] == s[1..] + t;
      AtoiAppend(s[1..], t, 10 * acc + (s[0] as int - '0' as int));
    }
  }

  lemma {:induction false} AtoiDecimal(n: nat)
    ensures Atoi(Decimal(n)) == n
  {
    if n >= 10 {
      AtoiDecimal(n / 10);
      AtoiAppend(Decimal(n / 10), [DigitChar(n % 10)], 0);
      assert [DigitChar(n % 10)][1..] == "";
    } else {
      var one := Decimal(n);
      assert one[0] == DigitChar(n) && one[1..] == "";
      assert AtoiFrom(one, 0) == AtoiFrom(one[1..], n);
    }
  }

  lemma {:induction false} DecimalLength(n: nat, digits: nat)
    requires digits > 0 && Pow10(digits - 1) <= n < Pow10(digits)
    ensures |Decimal(n)| == digits
  {
    if digits > 1 {
      assert Pow10(digits - 1) == 10 * Pow10(digits - 2);
      DecimalLength(n / 10, digits - 1);
    }
  }

  function Pow10(k: nat): (p: nat)
    ensures p >= 1
  {
    if k == 0 then 1 else 10 * Pow10(k - 1)
  }

  /** Two texts that agree, each cut at its first delimiter, agree in both parts. */
  lemma CutAtDelimiter(a: string, x: string, b: string, y: string, delims: set<char>)
    requires Free(a, delims) && Free(b, delims)
    requires x != "" && x[0] in delims && y != "" && y[0] in delims
    requires a + x == b + y
    ensures a == b && x == y
  {
    CutNotEarlier(a, x, b, y, delims);
    CutNotEarlier(b, y, a, x, delims);
    assert a == (a + x)[..|a|] && b == (b + y)[..|b|];
    CancelLeft(a, x, y);
  }

  lemma CutNotEarlier(a: string, x: string, b: string, y: string, delims: set<char>)
    requires Free(b, delims)
    requires x != "" && x[0] in delims
    requires a + x == b + y
    ensures |b| <= |a|
  {
    var w := a + x;
    assert w[|a|] == x[0];
    assert forall i :: 0 <= i < |b| ==> w[i] == b[i];
  }

  /** Equal texts with equal first parts have equal second parts. */
  lemma CancelLeft(a: string, x: string, y: string)
    requires a + x == a + y
    ensures x == y
  {
    assert x == (a + x)[|a|..] && y == (a + y)[|a|..];
  }
}
