/**
 * Query identifiers: `f"SYN{query_id:03d}"`, the decimal counter zero-padded
 * to at least three digits, and a parser that reads the number back.
 */
module QueryIds {
  import opened Wrappers

  const Prefix: string := "SYN"
  const MinDigits: nat := 3

  predicate IsDigit(c: char) { '0' <= c <= '9' }

  predicate AllDigits(s: string) { forall k :: 0 <= k < |s| ==> IsDigit(s[k]) }

  function DigitChar(d: nat): (c: char)
    requires d < 10
    ensures IsDigit(c)
  {
    (48 + d) as char
  }

  /** Decimal digits of `n`, most significant first, without leading zeros. */
  function Digits(n: nat): (s: string)
    ensures |s| >= 1 && AllDigits(s)
  {
    if n < 10 then [DigitChar(n)] else Digits(n / 10) + [DigitChar(n % 10)]
  }

  function Zeros(k: nat): (s: string)
    ensures |s| == k && AllDigits(s)
  {
    if k == 0 then [] else ['0'] + Zeros(k - 1)
  }

  /** Left-pads with zeros to `width` characters, as the `0w` format spec does. */
  function ZeroPad(s: string, width: nat): (r: string)
    ensures |r| == if |s| >= width then |s| else width
  {
    if |s| >= width then s else Zeros(width - |s|) + s
  }

  /** The id of the `n`-th emitted query. */
  function FormatId(n: nat): string {
    Prefix + ZeroPad(Digits(n), MinDigits)
  }

  /** The number a string of decimal digits denotes. */
  function DigitsValue(s: string): nat
    requires AllDigits(s)
  {
    if s == [] then 0 else DigitsValue(s[..|s| - 1]) * 10 + (s[|s| - 1] as int - 48)
  }

  /** Reads an id back: the prefix, then at least three decimal digits. */
  function ParseId(s: string): Option<nat> {
    if |s| >= |Prefix| + MinDigits && s[..|Prefix|] == Prefix && AllDigits(s[|Prefix|..])
    then Some(DigitsValue(s[|Prefix|..]))
    else None
  }
}

module QueryIdFacts {
  import opened Wrappers
  import opened QueryIds

  lemma {:induction false} DigitsValueOfDigits(n: nat)
    ensures DigitsValue(Digits(n)) == n
  {
    if n >= 10 {
      var s := Digits(n);
      assert s[..|s| - 1] == Digits(n / 10);
      DigitsValueOfDigits(n / 10);
    }
  }

  lemma {:induction false} LeadingZeroIgnored(s: string)
    requires AllDigits(s)
    ensures DigitsValue(['0'] + s) == DigitsValue(s)
  {
    if s != [] {
      var z := ['0'] + s;
      assert z[..|z| - 1] == ['0'] + s[..|s| - 1];
      LeadingZeroIgnored(s[..|s| - 1]);
    }
  }

  lemma {:induction false} ZerosIgnored(k: nat, s: string)
    requires AllDigits(s)
    ensures AllDigits(Zeros(k) + s) && DigitsValue(Zeros(k) + s) == DigitsValue(s)
  {
    if k > 0 {
      ZerosIgnored(k - 1, s);
      assert Zeros(k) + s == ['0'] + (Zeros(k - 1) + s);
      LeadingZeroIgnored(Zeros(k - 1) + s);
    } else {
      assert Zeros(k) + s == s;
    }
  }

  /** An id is the prefix followed by at least three decimal digits; exactly three below 1000. */
  lemma FormatIdShape(n: nat)
    ensures var id := FormatId(n);
      |id| >= |Prefix| + MinDigits && id[..|Prefix|] == Prefix && AllDigits(id[|Prefix|..])
      && (n < 1000 <==> |id| == |Prefix| + MinDigits)
  {
    var d := Digits(n);
    var p := ZeroPad(d, MinDigits);
    assert FormatId(n)[|Prefix|..] == p;
    if |d| < MinDigits {
      assert AllDigits(Zeros(MinDigits - |d|) + d) by { ZerosIgnored(MinDigits - |d|, d); }
    }
    DigitsCount(n);
  }

  /** `Digits(n)` has at most three digits exactly when `n < 1000`. */
  lemma DigitsCount(n: nat)
    ensures |Digits(n)| <= 3 <==> n < 1000
  {
    if n >= 10 {
      DigitsCount(n / 10);
    }
  }

  /** The numeric suffix of the `n`-th id reads back as `n`. */
  lemma ParseFormatId(n: nat)
    ensures ParseId(FormatId(n)) == Some(n)
  {
    FormatIdShape(n);
    var d := Digits(n);
    var p := ZeroPad(d, MinDigits);
    assert FormatId(n)[|Prefix|..] == p;
    DigitsValueOfDigits(n);
    if |d| < MinDigits {
      ZerosIgnored(MinDigits - |d|, d);
    }
  }

  /** Different counters give different ids. */
  lemma FormatIdInjective(m: nat, n: nat)
    ensures FormatId(m) == FormatId(n) <==> m == n
  {
    ParseFormatId(m);
    ParseFormatId(n);
  }
}
