/**
 * Human-visible document numbers: a prefix (`PO`, `GRV`, `LINE`) followed by
 * the primary key in decimal, zero-padded to at least six digits, which is what
 * Python's `f"{id:06d}"` produces for a non-negative key.
 */
module Numbering {
  import opened Wrappers

  const Width: nat := 6

  function DigitChar(d: nat): (c: char)
    requires d < 10
    ensures '0' <= c <= '9'
  {
    (d + '0' as int) as char
  }

  predicate IsDigit(c: char) {
    '0' <= c <= '9'
  }

  function DigitValue(c: char): (d: nat)
    requires IsDigit(c)
    ensures d < 10 && DigitChar(d) == c
  {
    (c as int - '0' as int)
  }

  /** The decimal digits of `n`, most significant first, with no leading zero (just "0" for zero). */
  function Digits(n: nat): (s: string)
    ensures 1 <= |s|
    ensures forall i :: 0 <= i < |s| ==> IsDigit(s[i])
    ensures |s| > 1 ==> s[0] != '0'
  {
    if n < 10 then [DigitChar(n)] else Digits(n / 10) + [DigitChar(n % 10)]
  }

  function Zeros(k: nat): (s: string)
    ensures |s| == k && forall i :: 0 <= i < k ==> s[i] == '0'
  {
    seq(k, _ => '0')
  }

  /** Left-pads with zeros up to `width` characters; longer strings are left as they are. */
  function ZeroPad(s: string, width: nat): string {
    if |s| >= width then s else Zeros(width - |s|) + s
  }

  /** `f"{n:06d}"`. */
  function FormatId(n: nat): string {
    ZeroPad(Digits(n), Width)
  }

  /** `PurchaseOrder.number`. */
  function PoNumber(id: nat): string {
    "PO" + FormatId(id)
  }

  /** `GoodsReceipt.number`. */
  function GrvNumber(id: nat): string {
    "GRV" + FormatId(id)
  }

  /** `GoodsReceiptLine.number`. */
  function LineNumber(id: nat): string {
    "LINE" + FormatId(id)
  }

  /** The value of a string of decimal digits; leading zeros contribute nothing. */
  function Value(s: string): nat
    requires forall i :: 0 <= i < |s| ==> IsDigit(s[i])
  {
    if s == [] then 0 else Value(s[..|s| - 1]) * 10 + DigitValue(s[|s| - 1])
  }

  /** Reads a number back: the prefix, then one or more digits. */
  function ParseNumber(prefix: string, s: string): (r: Option<nat>)
    ensures r.Some? ==> |s| > |prefix| && s[..|prefix|] == prefix
  {
    if |s| <= |prefix| || s[..|prefix|] != prefix then None
    else
      var body := s[|prefix|..];
      if forall i :: 0 <= i < |body| ==> IsDigit(body[i]) then Some(Value(body)) else None
  }

  lemma {:induction false} ValueOfDigits(n: nat)
    ensures Value(Digits(n)) == n
  {
    if n >= 10 {
      var s := Digits(n);
      assert s[..|s| - 1] == Digits(n / 10);
      ValueOfDigits(n / 10);
    }
  }

  lemma {:induction false} LeadingZeros(k: nat, s: string)
    requires forall i :: 0 <= i < |s| ==> IsDigit(s[i])
    ensures Value(Zeros(k) + s) == Value(s)
  {
    if s == [] {
      assert Zeros(k) + s == Zeros(k);
      if k > 0 {
        assert Zeros(k)[..k - 1] == Zeros(k - 1);
        LeadingZeros(k - 1, []);
        assert Zeros(k - 1) + [] == Zeros(k - 1);
      }
    } else {
      var n := |s| - 1;
      assert (Zeros(k) + s)[..|Zeros(k) + s| - 1] == Zeros(k) + s[..n];
      LeadingZeros(k, s[..n]);
    }
  }

  /** The formatted key has exactly max(6, number of digits) characters, all digits. */
  lemma FormatIdShape(n: nat)
    ensures |FormatId(n)| == if |Digits(n)| >= Width then |Digits(n)| else Width
    ensures forall i :: 0 <= i < |FormatId(n)| ==> IsDigit(FormatId(n)[i])
  {
  }

  /** Keys below a million take exactly six characters. */
  lemma {:induction false} SmallKeysTakeSixDigits(n: nat)
    requires n < 1000000
    ensures |FormatId(n)| == Width
  {
    assert Pow10(6) == 1000000;
    DigitsLength(n, 6);
  }

  lemma {:induction false} DigitsLength(n: nat, k: nat)
    requires 1 <= k && n < Pow10(k)
    ensures |Digits(n)| <= k
  {
    if k == 1 {
      assert Pow10(1) == 10;
    } else if n >= 10 {
      TenthBelow(n, Pow10(k - 1));
      DigitsLength(n / 10, k - 1);
    }
  }

  lemma TenthBelow(n: nat, p: nat)
    requires n < 10 * p
    ensures n / 10 < p
  {
  }

  function Pow10(k: nat): (p: nat)
    ensures p >= 1
  {
    if k == 0 then 1 else 10 * Pow10(k - 1)
  }

  /** The number reads back as the key it was formatted from, whatever the prefix. */
  lemma FormatThenParse(prefix: string, n: nat)
    ensures ParseNumber(prefix, prefix + FormatId(n)) == Some(n)
  {
    var d := Digits(n);
    var body := FormatId(n);
    var s := prefix + body;
    assert s[..|prefix|] == prefix && s[|prefix|..] == body;
    FormatIdShape(n);
    ValueOfDigits(n);
    if |d| < Width {
      LeadingZeros(Width - |d|, d);
    }
  }

  /** Distinct keys get distinct numbers: the three formatters never collide within one prefix. */
  lemma NumbersDistinct(a: nat, b: nat)
    requires a != b
    ensures PoNumber(a) != PoNumber(b) && GrvNumber(a) != GrvNumber(b) && LineNumber(a) != LineNumber(b)
  {
    FormatThenParse("PO", a);
    FormatThenParse("PO", b);
    FormatThenParse("GRV", a);
    FormatThenParse("GRV", b);
    FormatThenParse("LINE", a);
    FormatThenParse("LINE", b);
  }

  /** Keys of a million and up carry seven or more digits, so the padding adds nothing. */
  lemma {:induction false} LargeKeysUnpadded(n: nat)
    requires 1000000 <= n
    ensures |Digits(n)| > Width && FormatId(n) == Digits(n)
  {
    assert Pow10(6) == 1000000;
    DigitsAtLeast(n, 7);
  }

  lemma {:induction false} DigitsAtLeast(n: nat, k: nat)
    requires 1 <= k && Pow10(k - 1) <= n
    ensures |Digits(n)| >= k
  {
    if k > 1 {
      assert Pow10(k - 1) == 10 * Pow10(k - 2);
      DigitsAtLeast(n / 10, k - 1);
    }
  }
}
