/** The text of the step label, `` `${activeIndex + 1}/${tabs.length} step` ``: JavaScript
    writes a non-negative integer in plain decimal, without leading zeros. */
module StepLabel {

  predicate IsDigit(c: char) {
    '0' <= c <= '9'
  }

  function DigitChar(d: nat): (c: char)
    requires d < 10
    ensures IsDigit(c)
  {
    ('0' as int + d) as char
  }

  function DigitValue(c: char): (d: nat)
    requires IsDigit(c)
    ensures d < 10 && DigitChar(d) == c
  {
    c as int - '0' as int
  }

  /** The decimal numeral of `k`. */
  function Decimal(k: nat): (s: string)
    ensures |s| >= 1 && forall i :: 0 <= i < |s| ==> IsDigit(s[i])
    ensures s[0] == '0' ==> k == 0
    decreases k
  {
    if k < 10 then [DigitChar(k)] else Decimal(k / 10) + [DigitChar(k % 10)]
  }

  /** The value of a numeral. */
  function ParseDecimal(s: string): nat
    requires forall i :: 0 <= i < |s| ==> IsDigit(s[i])
  {
    if s == [] then 0 else ParseDecimal(s[..|s| - 1]) * 10 + DigitValue(s[|s| - 1])
  }

  /** Reading a numeral back gives the number that was written. */
  lemma {:induction false} ParseDecimalOfDecimal(k: nat)
    ensures ParseDecimal(Decimal(k)) == k
    decreases k
  {
    var s := Decimal(k);
    if k < 10 {
      assert s[..|s| - 1] == [];
    } else {
      ParseDecimalOfDecimal(k / 10);
      assert s[..|s| - 1] == Decimal(k / 10);
    }
  }

  /** Different numbers are written differently. */
  lemma DecimalInjective(a: nat, b: nat)
    requires Decimal(a) == Decimal(b)
    ensures a == b
  {
    ParseDecimalOfDecimal(a);
    ParseDecimalOfDecimal(b);
  }

  /** The label shown for the (zero-based) step `active` out of `count`. */
  function Label(active: nat, count: nat): string {
    Decimal(active + 1) + "/" + Decimal(count) + " step"
  }

  /** A run of digits followed by a slash: the slash is the first one, so it ends the run. */
  lemma DigitsThenSlash(d1: string, r1: string, d2: string, r2: string)
    requires forall i :: 0 <= i < |d1| ==> IsDigit(d1[i])
    requires forall i :: 0 <= i < |d2| ==> IsDigit(d2[i])
    requires d1 + "/" + r1 == d2 + "/" + r2
    ensures d1 == d2 && r1 == r2
  {
    var s := d1 + "/" + r1;
    assert s[|d1|] == '/' && forall i :: 0 <= i < |d1| ==> s[i] == d1[i];
    assert s[|d2|] == '/' && forall i :: 0 <= i < |d2| ==> s[i] == d2[i];
    assert |d1| == |d2|;
    assert d1 == s[..|d1|] == d2;
    assert r1 == s[|d1| + 1..] == r2;
  }

  /** The label determines both the step and the count: no two states share a label. */
  lemma LabelDetermines(a1: nat, n1: nat, a2: nat, n2: nat)
    requires Label(a1, n1) == Label(a2, n2)
    ensures a1 == a2 && n1 == n2
  {
    var e1, e2 := Decimal(n1), Decimal(n2);
    assert Label(a1, n1) == Decimal(a1 + 1) + "/" + (e1 + " step");
    assert Label(a2, n2) == Decimal(a2 + 1) + "/" + (e2 + " step");
    DigitsThenSlash(Decimal(a1 + 1), e1 + " step", Decimal(a2 + 1), e2 + " step");
    DecimalInjective(a1 + 1, a2 + 1);
    assert e1 == (e1 + " step")[..|e1|];
    assert e2 == (e2 + " step")[..|e2|];
    assert |e1| == |e2|;
    DecimalInjective(n1, n2);
  }
}
