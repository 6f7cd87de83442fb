/** Names of the files an inspection stages. */
module PartialFiles {

  function Digit(n: nat): char
    requires n < 10
  {
    '0' + n as char
  }

  function Decimal(n: nat): (s: string)
    ensures s != []
  {
    if n < 10 then [Digit(n)] else Decimal(n / 10) + [Digit(n % 10)]
  }

  function PartialName(inspection: string, index: nat): string {
    "inspection-" + inspection + "-asset-" + Decimal(index) + ".partial"
  }

  lemma {:induction false} DecimalInjective(m: nat, n: nat)
    requires Decimal(m) == Decimal(n)
    ensures m == n
  {
    var s := Decimal(m);
    assert s[|s| - 1] == Digit(m % 10) == Digit(n % 10);
    if m >= 10 && n >= 10 {
      assert Decimal(m / 10) == s[..|s| - 1] == Decimal(n / 10);
      DecimalInjective(m / 10, n / 10);
    }
  }

  lemma AffixesCancel(prefix: string, a: string, b: string, suffix: string)
    requires prefix + a + suffix == prefix + b + suffix
    ensures a == b
  {
    var s := prefix + a + suffix;
    assert |a| == |b|;
    assert a == s[|prefix|..|prefix| + |a|];
    assert b == s[|prefix|..|prefix| + |b|];
  }

  /** Different entries of one inspection stage to different files. */
  lemma PartialNameInjective(inspection: string, i: nat, j: nat)
    requires PartialName(inspection, i) == PartialName(inspection, j)
    ensures i == j
  {
    AffixesCancel("inspection-" + inspection + "-asset-", Decimal(i), Decimal(j), ".partial");
    DecimalInjective(i, j);
  }
}
