/** The decimal scanning loop the shim repeats for device minors and cgroup counters,
    with its overflow guard, and the printing it inverts. */
module Numbers {
  import opened Text

  const INT_MAX := 0x7fff_ffff
  const U64_MAX := 0xffff_ffff_ffff_ffff

  predicate IsDigit(c: char) {
    '0' <= c <= '9'
  }

  predicate AllDigits(s: string) {
    forall i :: 0 <= i < |s| ==> IsDigit(s[i])
  }

  function Value(s: string): nat
    requires AllDigits(s)
  {
    if s == "" then 0 else Value(s[..|s|-1]) * 10 + (s[|s|-1] as int - '0' as int)
  }

  /** The number a token denotes, if it is a number of at most `max`. */
  function ParseNumber(s: string, max: nat): Option<nat> {
    if s != "" && AllDigits(s) && Value(s) <= max then Some(Value(s)) else None
  }

  /** Decimal notation without leading zeros. */
  function Print(n: nat): (s: string)
    ensures s != "" && AllDigits(s)
  {
    var last := ['0' + (n % 10) as char];
    if n < 10 then last else Print(n / 10) + last
  }

  function Zeros(k: nat): (s: string)
    ensures |s| == k && forall i :: 0 <= i < k ==> s[i] == '0'
  {
    seq(k, _ => '0')
  }

  lemma {:induction false} ValueGrows(s: string, i: nat)
    requires AllDigits(s) && i <= |s|
    ensures Value(s[..i]) <= Value(s)
    decreases |s|
  {
    if i == |s| {
      assert s[..i] == s;
    } else {
      var init := s[..|s|-1];
      assert init[..i] == s[..i];
      ValueGrows(init, i);
    }
  }

  lemma {:induction false} ValueOfPrint(n: nat)
    ensures Value(Print(n)) == n
  {
    if n >= 10 {
      ValueOfPrint(n / 10);
      assert Print(n)[..|Print(n)|-1] == Print(n / 10);
    } else {
      assert Print(n)[..0] == "";
    }
  }

  function Pow10(k: nat): (p: nat)
    ensures p > 0
  {
    if k == 0 then 1 else 10 * Pow10(k - 1)
  }

  lemma {:induction false} PrintLength(n: nat, k: nat)
    requires k >= 1 && n < Pow10(k)
    ensures |Print(n)| <= k
    decreases k
  {
    if n >= 10 {
      assert k > 1;
      PrintLength(n / 10, k - 1);
    }
  }

  /** 64-bit values take at most 20 digits, kilobytes below 2^53 at most 16. */
  lemma PrintLengths(n: nat)
    ensures n <= U64_MAX ==> |Print(n)| <= 20
    ensures n < 0x20_0000_0000_0000 ==> |Print(n)| <= 16
  {
    assert Pow10(4) == 10000;
    assert Pow10(8) == 100000000;
    assert Pow10(12) == 1000000000000;
    assert Pow10(16) == 10000000000000000;
    assert Pow10(20) == 100000000000000000000;
    if n < 0x20_0000_0000_0000 {
      PrintLength(n, 16);
    }
    if n <= U64_MAX {
      PrintLength(n, 20);
    }
  }

  lemma ZerosNext(k: nat)
    ensures Zeros(k) + "0" == Zeros(k + 1)
  {
  }

  lemma PrintNext(n: nat, digit: nat)
    requires digit < 10
    ensures Print(10 * n + digit) == (if n == 0 then "" else Print(n)) + ['0' + digit as char]
  {
  }

  lemma Regroup(a: string, b: string, c: string)
    ensures a + b + c == a + (b + c)
  {
  }

  /** Appending a digit to a padded printing gives the padded printing of the longer number. */
  lemma PaddedNext(k: nat, n: nat, digit: nat) returns (k': nat)
    requires digit < 10
    ensures Zeros(k) + Print(n) + ['0' + digit as char] == Zeros(k') + Print(10 * n + digit)
  {
    PrintNext(n, digit);
    if n == 0 {
      assert Print(0) == "0";
      ZerosNext(k);
      k' := k + 1;
    } else {
      hide Print, Zeros;
      Regroup(Zeros(k), Print(n), ['0' + digit as char]);
      k' := k;
    }
  }

  lemma {:induction false} DigitsArePaddedPrint(s: string)
    requires s != "" && AllDigits(s)
    ensures exists k: nat :: s == Zeros(k) + Print(Value(s))
    decreases |s|
  {
    hide Print, Zeros;
    var init, digit := s[..|s|-1], s[|s|-1] as int - '0' as int;
    assert s == init + ['0' + digit as char];
    if init == "" {
      PrintNext(0, digit);
      assert s == Zeros(0) + Print(Value(s));
    } else {
      DigitsArePaddedPrint(init);
      var k: nat :| init == Zeros(k) + Print(Value(init));
      var k' := PaddedNext(k, Value(init), digit);
      assert s == Zeros(k') + Print(Value(s));
    }
  }

  lemma {:induction false} ValueIgnoresLeadingZeros(k: nat, s: string)
    requires AllDigits(s)
    ensures AllDigits(Zeros(k) + s) && Value(Zeros(k) + s) == Value(s)
    decreases |s|, k
  {
    var t := Zeros(k) + s;
    if s != "" {
      assert t[..|t|-1] == Zeros(k) + s[..|s|-1];
      ValueIgnoresLeadingZeros(k, s[..|s|-1]);
    } else if k > 0 {
      assert t[..|t|-1] == Zeros(k-1) + s;
      ValueIgnoresLeadingZeros(k-1, s);
    }
  }

  /** Parsing inverts printing, and accepts nothing else than padded printings that fit. */
  lemma ParseInvertsPrint(s: string, max: nat, n: nat)
    ensures ParseNumber(s, max) == Some(n) <==> n <= max && exists k: nat :: s == Zeros(k) + Print(n)
  {
    if ParseNumber(s, max) == Some(n) {
      DigitsArePaddedPrint(s);
    }
    if k: nat :| s == Zeros(k) + Print(n) {
      ValueIgnoresLeadingZeros(k, Print(n));
      ValueOfPrint(n);
    }
  }

  /** The shared loop: digits only, and `value > (max - digit) / 10` refuses an overflow
      before it happens. */
  method ParseDecimal(s: string, max: nat) returns (r: Option<nat>)
    requires max >= 9
    ensures r == ParseNumber(s, max)
  {
    if s == "" {
      return None;
    }
    var value, i := 0, 0;
    while i < |s|
      invariant i <= |s| && AllDigits(s[..i])
      invariant value == Value(s[..i]) <= max
    {
      if !IsDigit(s[i]) {
        return None;
      }
      var digit := s[i] as int - '0' as int;
      assert s[..i+1][..i] == s[..i];
      if value > (max - digit) / 10 {
        if AllDigits(s) {
          ValueGrows(s, i + 1);
        }
        return None;
      }
      value := value * 10 + digit;
      i := i + 1;
    }
    assert s[..i] == s;
    r := Some(value);
  }

  /** Decimal digits behind a fixed prefix: `/dev/nvidia<minor>` of an opened path,
      `nvidia<minor>` of a directory entry. */
  function ParseMinorAfter(prefix: string, s: string): Option<nat> {
    if prefix <= s then ParseNumber(s[|prefix|..], INT_MAX) else None
  }

  method ParseMinor(prefix: string, s: string) returns (minor: Option<nat>)
    ensures minor == ParseMinorAfter(prefix, s)
  {
    if !(prefix <= s) {
      return None;
    }
    minor := ParseDecimal(s[|prefix|..], INT_MAX);
  }

  /** A device path is tracked with minor n exactly when it prints n behind the prefix. */
  lemma MinorInvertsPrint(prefix: string, s: string, n: nat)
    ensures ParseMinorAfter(prefix, s) == Some(n) <==>
            n <= INT_MAX && exists k: nat :: s == prefix + (Zeros(k) + Print(n))
  {
    if prefix <= s {
      assert s == prefix + s[|prefix|..];
      ParseInvertsPrint(s[|prefix|..], INT_MAX, n);
      if k: nat :| s == prefix + (Zeros(k) + Print(n)) {
        assert s[|prefix|..] == Zeros(k) + Print(n);
      }
    }
  }
}
