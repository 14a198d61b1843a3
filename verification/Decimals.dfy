/** Numbers as decimal text, printed and read. */
module Decimals {
  import opened Values
  import opened Text

  predicate IsDigit(c: char) { '0' <= c <= '9' }

  predicate AllDigits(s: string) {
    forall i :: 0 <= i < |s| ==> IsDigit(s[i])
  }

  /** `n.to_string()`. */
  function Decimal(n: nat): string {
    if n < 10 then [('0' as int + n) as char] else Decimal(n / 10) + [('0' as int + n % 10) as char]
  }

  function Digits(s: string): Option<nat> {
    if s == "" || !IsDigit(s[|s| - 1]) then None
    else
      var last := s[|s| - 1] as nat - '0' as nat;
      if |s| == 1 then Some(last)
      else
        var front := Digits(s[..|s| - 1]);
        if front.Some? then Some(front.value * 10 + last) else None
  }

  /** An unsigned integer as `parse` reads it, before its range is looked at: a leading
      `+` is read over. */
  function Unsigned(s: string): Option<nat> {
    if |s| > 1 && s[0] == '+' then Digits(s[1..]) else Digits(s)
  }

  const U32_MAX: nat := 0xffff_ffff

  /** `s.parse::<u32>()`. */
  function ParseU32(s: string): Option<nat> {
    var n := Unsigned(s);
    if n.Some? && n.value > U32_MAX then None else n
  }

  lemma {:induction false} DecimalDigits(n: nat)
    ensures Digits(Decimal(n)) == Some(n)
    ensures Decimal(n) != "" && AllDigits(Decimal(n))
  {
    var s := Decimal(n);
    if n >= 10 {
      DecimalDigits(n / 10);
      assert s[..|s| - 1] == Decimal(n / 10);
      assert s[0] == Decimal(n / 10)[0];
    }
  }

  lemma UnsignedDecimal(n: nat)
    ensures Unsigned(Decimal(n)) == Some(n)
  {
    DecimalDigits(n);
  }

  lemma DigitsAreInked(s: string)
    requires AllDigits(s)
    ensures NoSpace(s)
  {
  }

  function Pow10(w: nat): nat {
    if w == 0 then 1 else 10 * Pow10(w - 1)
  }

  lemma {:induction false} DecimalLength(n: nat, w: nat)
    requires w > 0
    ensures |Decimal(n)| <= w <==> n < Pow10(w)
  {
    if n >= 10 {
      if w == 1 {
        assert Pow10(1) == 10;
        assert |Decimal(n / 10)| >= 1;
      } else {
        DecimalLength(n / 10, w - 1);
      }
    } else {
      TenAtLeast(w);
    }
  }

  lemma {:induction false} TenAtLeast(w: nat)
    requires w > 0
    ensures Pow10(w) >= 10
  {
    if w > 1 { TenAtLeast(w - 1); } else { assert Pow10(0) == 1; }
  }

  /** `{n:0w}`: at least `w` digits. */
  function Padded(n: nat, w: nat): string {
    var s := Decimal(n);
    if |s| >= w then s else seq(w - |s|, _ => '0') + s
  }

  lemma {:induction false} DigitsPadded(k: nat, s: string)
    requires s != "" && AllDigits(s) && Digits(s).Some?
    ensures AllDigits(seq(k, _ => '0') + s) && Digits(seq(k, _ => '0') + s) == Digits(s)
    decreases k
  {
    if k > 0 {
      DigitsPadded(k - 1, s);
      var t := seq(k - 1, _ => '0') + s;
      assert seq(k, _ => '0') + s == "0" + t;
      ZeroFirst(t);
    } else {
      assert seq(k, _ => '0') + s == s;
    }
  }

  lemma {:induction false} ZeroFirst(s: string)
    requires s != "" && AllDigits(s)
    ensures Digits("0" + s) == Digits(s)
  {
    var z := "0" + s;
    assert z[..|z| - 1] == "0" + s[..|s| - 1];
    if |s| > 1 {
      ZeroFirst(s[..|s| - 1]);
    } else {
      assert "0" + s[..0] == "0";
      assert Digits("0") == Some(0);
    }
  }

  /** Padding keeps the number, and a number that fits comes out exactly as wide as asked. */
  lemma PaddedReads(n: nat, w: nat)
    requires w > 0
    ensures AllDigits(Padded(n, w)) && Digits(Padded(n, w)) == Some(n)
    ensures |Padded(n, w)| == w <==> n < Pow10(w)
    ensures |Padded(n, w)| >= w
  {
    DecimalDigits(n);
    DecimalLength(n, w);
    if |Decimal(n)| < w { DigitsPadded(w - |Decimal(n)|, Decimal(n)); }
  }
}
