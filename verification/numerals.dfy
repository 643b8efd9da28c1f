/** Decimal rendering of a count, as a JavaScript template literal renders a
    positive integer, and the default name `"<label> <n>"` given to a new item. */
module Numerals {

  predicate IsDigits(s: string) {
    forall k :: 0 <= k < |s| ==> '0' <= s[k] <= '9'
  }

  function DigitChar(d: nat): (c: char)
    requires d < 10
    ensures '0' <= c <= '9'
  {
    (('0' as int) + d) as char
  }

  function DigitValue(c: char): (d: nat)
    requires '0' <= c <= '9'
    ensures d < 10
  {
    (c as int) - ('0' as int)
  }

  /** Shortest decimal spelling of `n`, most significant digit first. */
  function NatToString(n: nat): (s: string)
    ensures |s| >= 1 && IsDigits(s)
    ensures |s| > 1 ==> s[0] != '0'
    decreases n
  {
    if n < 10 then [DigitChar(n)] else NatToString(n / 10) + [DigitChar(n % 10)]
  }

  /** The number a string of decimal digits denotes. */
  function ValueOf(s: string): nat
    requires IsDigits(s)
  {
    if |s| == 0 then 0 else ValueOf(s[..|s| - 1]) * 10 + DigitValue(s[|s| - 1])
  }

  /** Reading back the rendered count gives the count. */
  lemma {:induction false} ValueOfNatToString(n: nat)
    ensures ValueOf(NatToString(n)) == n
    decreases n
  {
    if n >= 10 {
      var s := NatToString(n);
      var prefix := NatToString(n / 10);
      assert s[..|s| - 1] == prefix;
      ValueOfNatToString(n / 10);
    }
  }

  /** The name of the `count`-th item under `tag`: the label, one space, the count. */
  function DefaultName(tag: string, count: nat): (name: string)
    ensures |name| > |tag| + 1
    ensures name[..|tag|] == tag && name[|tag|] == ' '
    ensures IsDigits(name[|tag| + 1..]) && ValueOf(name[|tag| + 1..]) == count
    // the count is spelled without leading zeros, as a template literal renders it
    ensures |name| > |tag| + 2 ==> name[|tag| + 1] != '0'
  {
    ValueOfNatToString(count);
    assert (tag + " " + NatToString(count))[|tag| + 1..] == NatToString(count);
    tag + " " + NatToString(count)
  }
}
