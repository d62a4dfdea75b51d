/** How index.js turns a disambiguation counter into text: JavaScript's number-to-string
    for an integer, and the label `${fileName} (${count})` shown for a repeated file name. */
module DisplayNames {

  predicate IsDigit(c: char) {
    '0' <= c <= '9'
  }

  /** The character of a single decimal digit. */
  function DigitChar(d: nat): (c: char)
    requires d < 10
    ensures IsDigit(c)
    ensures c as int - '0' as int == d
  {
    ('0' as int + d) as char
  }

  /** Decimal digits of n, most significant first, with no leading zero. */
  function NatToString(n: nat): (s: string)
    ensures |s| > 0
    ensures forall k :: 0 <= k < |s| ==> IsDigit(s[k])
    ensures |s| == 1 || s[0] != '0'
    decreases n
  {
    if n < 10 then [DigitChar(n)] else NatToString(n / 10) + [DigitChar(n % 10)]
  }

  /** How JavaScript writes an integer-valued number: a minus sign, then the digits of its magnitude. */
  function IntToString(i: int): (s: string)
    ensures |s| > 0
    ensures s[0] == '-' <==> i < 0
    ensures forall k :: 0 < k < |s| ==> IsDigit(s[k])
  {
    if i < 0 then "-" + NatToString(-i) else NatToString(i)
  }

  /** The value of a string of decimal digits, read most significant first. */
  function DigitsValue(s: string): int
    decreases |s|
  {
    if s == [] then 0 else DigitsValue(s[..|s| - 1]) * 10 + (s[|s| - 1] as int - '0' as int)
  }

  /** Reads back a string written by IntToString. */
  function StringToInt(s: string): int {
    if |s| > 0 && s[0] == '-' then -DigitsValue(s[1..]) else DigitsValue(s)
  }

  lemma {:induction false} DigitsValueOfNatToString(n: nat)
    ensures DigitsValue(NatToString(n)) == n
    decreases n
  {
    if n >= 10 {
      var s := NatToString(n);
      assert s[..|s| - 1] == NatToString(n / 10);
      DigitsValueOfNatToString(n / 10);
    }
  }

  /** StringToInt inverts IntToString, for negative numbers as well. */
  lemma StringToIntOfIntToString(i: int)
    ensures StringToInt(IntToString(i)) == i
  {
    if i < 0 {
      assert ("-" + NatToString(-i))[1..] == NatToString(-i);
      DigitsValueOfNatToString(-i);
    } else {
      assert IsDigit(NatToString(i)[0]);
      DigitsValueOfNatToString(i);
    }
  }

  /** Two different counters are never written the same way. */
  lemma IntToStringInjective(a: int, b: int)
    requires IntToString(a) == IntToString(b)
    ensures a == b
  {
    StringToIntOfIntToString(a);
    StringToIntOfIntToString(b);
  }

  /** The label of the count-th repeat of a file name: `base (count)`. */
  function Disambiguate(base: string, count: int): (r: string)
    ensures |r| == |base| + |IntToString(count)| + 3
    ensures r[..|base|] == base
    ensures r[|base|..|base| + 2] == " ("
    ensures r[|r| - 1] == ')'
  {
    base + " (" + IntToString(count) + ")"
  }

  /** The counter can be read back out of a label. */
  lemma DisambiguateInjective(base: string, c1: int, c2: int)
    requires Disambiguate(base, c1) == Disambiguate(base, c2)
    ensures c1 == c2
  {
    var r1, r2 := Disambiguate(base, c1), Disambiguate(base, c2);
    assert r1[|base| + 2..|r1| - 1] == IntToString(c1);
    assert r2[|base| + 2..|r2| - 1] == IntToString(c2);
    IntToStringInjective(c1, c2);
  }

  /** What the file list shows for a file name whose counter reads `count`: the
      name itself when the counter is falsy (0 or absent), otherwise the label. */
  function Label(base: string, count: int): (r: string)
    ensures r == base <==> count == 0
    ensures count != 0 ==> r == Disambiguate(base, count)
  {
    if count == 0 then base else Disambiguate(base, count)
  }

  /** Different counter values give different labels of one file name. */
  lemma LabelInjective(base: string, c1: int, c2: int)
    requires Label(base, c1) == Label(base, c2)
    ensures c1 == c2
  {
    if c1 != 0 && c2 != 0 {
      DisambiguateInjective(base, c1, c2);
    }
  }
}
