/** Digit strings and the numbers they denote. */
module Decimal {

  function Digit(n: int): char
    requires 0 <= n < 10
  {
    '0' + n as char
  }

  function NatText(n: nat): string {
    if n < 10 then [Digit(n)] else NatText(n / 10) + [Digit(n % 10)]
  }

  /** str() of an integer */
  function IntText(n: int): string {
    if n < 0 then "-" + NatText(-n) else NatText(n)
  }

  predicate IsDigits(s: string) {
    forall i | 0 <= i < |s| :: '0' <= s[i] <= '9'
  }

  function NatOf(s: string): nat
    requires IsDigits(s)
  {
    if s == "" then 0 else 10 * NatOf(s[..|s| - 1]) + (s[|s| - 1] as int - '0' as int)
  }

  function Zeros(n: nat): (r: string)
    ensures |r| == n && forall i | 0 <= i < n :: r[i] == '0'
  {
    if n == 0 then "" else Zeros(n - 1) + "0"
  }

  function Ten(k: nat): nat {
    if k == 0 then 1 else 10 * Ten(k - 1)
  }

  lemma {:induction false} NatBounds(s: string)
    requires IsDigits(s)
    ensures NatOf(s) < Ten(|s|)
    ensures s != "" && s[0] != '0' ==> NatOf(s) >= Ten(|s| - 1)
    decreases |s|
  {
    if |s| > 0 {
      NatBounds(s[..|s| - 1]);
      if |s| == 1 {
        assert NatOf(s[..0]) == 0;
      }
    }
  }

  lemma {:induction false} LeadingZeros(j: nat, s: string)
    requires IsDigits(s)
    ensures IsDigits(Zeros(j) + s)
    ensures NatOf(Zeros(j) + s) == NatOf(s)
    decreases j + |s|
  {
    var t := Zeros(j) + s;
    if s != "" {
      LeadingZeros(j, s[..|s| - 1]);
      assert t[..|t| - 1] == Zeros(j) + s[..|s| - 1];
    } else if j > 0 {
      LeadingZeros(j - 1, "");
      assert t[..|t| - 1] == Zeros(j - 1) + "";
    }
  }

  lemma {:induction false} NatOfText(n: nat)
    ensures NatText(n) != "" && IsDigits(NatText(n)) && NatOf(NatText(n)) == n
    ensures n > 0 ==> NatText(n)[0] != '0'
  {
    if n >= 10 {
      NatOfText(n / 10);
      var t := NatText(n);
      assert t[..|t| - 1] == NatText(n / 10);
    } else {
      assert NatText(n)[..0] == "";
    }
  }

  lemma {:induction false} NatInjective(s: string, t: string)
    requires IsDigits(s) && IsDigits(t) && |s| == |t| && NatOf(s) == NatOf(t)
    ensures s == t
    decreases |s|
  {
    if s != "" {
      var n := |s| - 1;
      NatInjective(s[..n], t[..n]);
      assert s == s[..n] + [s[n]] && t == t[..n] + [t[n]];
    }
  }

  /** Zero-padded to a width, as f"{x:03d}" writes it. */
  function Pad(x: nat, width: nat): string {
    var text := NatText(x);
    if |text| < width then Zeros(width - |text|) + text else text
  }

  lemma {:induction false} TenGrows(j: nat, k: nat)
    requires j <= k
    ensures Ten(j) <= Ten(k)
    decreases k
  {
    if j < k {
      TenGrows(j, k - 1);
    }
  }

  lemma TextWidth(x: nat, width: nat)
    requires 0 < width && x < Ten(width)
    ensures 0 < |NatText(x)| <= width
  {
    var text := NatText(x);
    NatOfText(x);
    NatBounds(text);
    if |text| > width && x > 0 {
      TenGrows(width, |text| - 1);
    }
  }

  lemma PadDigits(x: nat, width: nat)
    requires 0 < width && x < Ten(width)
    ensures |Pad(x, width)| == width && IsDigits(Pad(x, width)) && NatOf(Pad(x, width)) == x
  {
    hide NatText, NatOf, Ten, Zeros;
    var text := NatText(x);
    TextWidth(x, width);
    NatOfText(x);
    LeadingZeros(width - |text|, text);
  }

  lemma PadOfDigits(s: string)
    requires IsDigits(s) && s != ""
    ensures NatOf(s) < Ten(|s|) && Pad(NatOf(s), |s|) == s
  {
    NatBounds(s);
    PadDigits(NatOf(s), |s|);
    NatInjective(Pad(NatOf(s), |s|), s);
  }
}
