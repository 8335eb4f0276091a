/**
 * Decimal text for amounts. Amounts are whole cents; the text forms are those
 * JavaScript produces and reads for an amount of `cents / 100`:
 * `Number.prototype.toString` (RenderCents), `toFixed(2)` (Fixed2) and
 * `parseFloat` (ParseCents, on plain decimals with at most two fraction digits).
 */
module Numbers {
  import opened Wrappers

  predicate IsDigit(c: char)
  {
    '0' <= c <= '9'
  }

  predicate AllDigits(s: string)
  {
    forall k :: 0 <= k < |s| ==> IsDigit(s[k])
  }

  function DigitChar(d: nat): (c: char)
    requires d < 10
    ensures IsDigit(c) && DigitValue(c) == d
  {
    ('0' as int + d) as char
  }

  function DigitValue(c: char): (d: nat)
    requires IsDigit(c)
    ensures d < 10
  {
    c as int - '0' as int
  }

  /** Decimal digits of `n`, without leading zeros. */
  function NatToString(n: nat): (r: string)
    ensures r != [] && AllDigits(r)
    ensures |r| > 1 ==> r[0] != '0'
  {
    if n < 10 then [DigitChar(n)] else NatToString(n / 10) + [DigitChar(n % 10)]
  }

  /** The value of a string of decimal digits (leading zeros allowed, "" is 0). */
  function ParseNat(s: string): nat
    requires AllDigits(s)
  {
    if s == [] then 0 else ParseNat(s[..|s| - 1]) * 10 + DigitValue(s[|s| - 1])
  }

  /** Reading back the digits of a number gives the number. */
  lemma {:induction false} ParseNatToString(n: nat)
    ensures ParseNat(NatToString(n)) == n
  {
    var s := NatToString(n);
    if n < 10 {
      assert s[..|s| - 1] == [];
    } else {
      assert s[..|s| - 1] == NatToString(n / 10);
      ParseNatToString(n / 10);
    }
  }

  function Pow10(k: nat): (p: nat)
    ensures p >= 1
  {
    if k == 0 then 1 else 10 * Pow10(k - 1)
  }

  /** A string of `k` digits denotes a number below `10^k`. */
  lemma {:induction false} ParseNatBound(s: string)
    requires AllDigits(s)
    ensures ParseNat(s) < Pow10(|s|)
  {
    if s != [] {
      ParseNatBound(s[..|s| - 1]);
    }
  }

  /** Position of the first `c` in `s`, or `|s|` when there is none. */
  function IndexOf(s: string, c: char): (r: nat)
    ensures r <= |s|
    ensures r < |s| ==> s[r] == c
    ensures forall k :: 0 <= k < r ==> s[k] != c
  {
    if s == [] then 0 else if s[0] == c then 0 else 1 + IndexOf(s[1..], c)
  }

  /** The fraction part `Number.toString` writes for `f` hundredths: nothing, one digit, or two. */
  function FractionText(f: nat): string
    requires f < 100
  {
    if f == 0 then ""
    else if f % 10 == 0 then "." + [DigitChar(f / 10)]
    else "." + [DigitChar(f / 10), DigitChar(f % 10)]
  }

  function UnsignedText(m: nat): string
  {
    NatToString(m / 100) + FractionText(m % 100)
  }

  /** `(cents / 100).toString()`: a minus sign for negative amounts, no trailing fraction zeros. */
  function RenderCents(cents: int): string
  {
    if cents < 0 then "-" + UnsignedText(-cents) else UnsignedText(cents)
  }

  /** `toFixed(2)` of a non-negative amount: integer digits, a point and exactly two digits. */
  function Fixed2(m: nat): (r: string)
    ensures |r| >= 4 && r[|r| - 3] == '.'
    ensures AllDigits(r[..|r| - 3]) && AllDigits(r[|r| - 2..])
  {
    NatToString(m / 100) + "." + [DigitChar(m % 100 / 10), DigitChar(m % 10)]
  }

  /** `toFixed(2)` of any amount. */
  function SignedFixed2(cents: int): string
  {
    if cents < 0 then "-" + Fixed2(-cents) else Fixed2(cents)
  }

  function FractionValue(fp: string): nat
    requires 1 <= |fp| <= 2 && AllDigits(fp)
  {
    if |fp| == 1 then 10 * DigitValue(fp[0]) else 10 * DigitValue(fp[0]) + DigitValue(fp[1])
  }

  /** An unsigned decimal with at most two fraction digits, in cents. */
  function ParseUnsignedCents(s: string): (r: Option<nat>)
    ensures r.Some? ==> s != [] && IsDigit(s[0])
  {
    var i := IndexOf(s, '.');
    if i == |s| then
      if s != [] && AllDigits(s) then Some(ParseNat(s) * 100) else None
    else
      var ip, fp := s[..i], s[i + 1..];
      if ip != [] && AllDigits(ip) && 1 <= |fp| <= 2 && AllDigits(fp)
      then Some(ParseNat(ip) * 100 + FractionValue(fp))
      else None
  }

  /** `parseFloat` on amount text, in cents; `None` stands for `NaN`. */
  function ParseCents(s: string): Option<int>
  {
    if |s| > 0 && s[0] == '-' then
      match ParseUnsignedCents(s[1..])
      case Some(v) => Some(-(v as int))
      case None => None
    else
      match ParseUnsignedCents(s)
      case Some(v) => Some(v as int)
      case None => None
  }

  lemma {:induction false} IndexOfAfterDigits(a: string, b: string, c: char)
    requires AllDigits(a) && !IsDigit(c)
    ensures IndexOf(a + b, c) == |a| + IndexOf(b, c)
  {
    if a != [] {
      assert IsDigit(a[0]) && (a + b)[0] == a[0] && (a + b)[1..] == a[1..] + b;
      IndexOfAfterDigits(a[1..], b, c);
    } else {
      assert a + b == b;
    }
  }

  lemma {:induction false} ParseUnsignedText(m: nat)
    ensures ParseUnsignedCents(UnsignedText(m)) == Some(m)
  {
    var ip, ft := NatToString(m / 100), FractionText(m % 100);
    var s := ip + ft;
    ParseNatToString(m / 100);
    if ft == "" {
      IndexOfAfterDigits(ip, [], '.');
      assert s == ip;
    } else {
      IndexOfAfterDigits(ip, ft, '.');
      assert s[..|ip|] == ip;
      assert s[|ip| + 1..] == ft[1..];
    }
  }

  /** The amount text of an export reads back as the same amount. */
  lemma RenderCentsRoundTrip(cents: int)
    ensures ParseCents(RenderCents(cents)) == Some(cents)
  {
    ParseUnsignedText(if cents < 0 then -cents else cents);
    if cents < 0 {
      assert RenderCents(cents)[1..] == UnsignedText(-cents);
    }
  }

  /** `toFixed(2)` text reads back as the same amount. */
  lemma Fixed2RoundTrip(m: nat)
    ensures ParseCents(Fixed2(m)) == Some(m)
  {
    var ip := NatToString(m / 100);
    var ft := "." + [DigitChar(m % 100 / 10), DigitChar(m % 10)];
    ParseNatToString(m / 100);
    IndexOfAfterDigits(ip, ft, '.');
    assert Fixed2(m)[..|ip|] == ip;
    assert Fixed2(m)[|ip| + 1..] == ft[1..];
  }
}
