/** Numbered identifiers: `event:<n>` and `fact:<kind>:<key>:<predicate>:<n>`, and how the next `n` is found. */
module EventIds {
  import opened Wrappers

  function Digit(d: nat): char
    requires d < 10
  {
    "0123456789"[d]
  }

  function Decimal(n: nat): (s: string)
    ensures s != "" && forall i :: 0 <= i < |s| ==> '0' <= s[i] <= '9'
  {
    if n < 10 then [Digit(n)] else Decimal(n / 10) + [Digit(n % 10)]
  }

  function ParseDigits(s: string): Option<nat>
    decreases |s|
  {
    if s == "" then Some(0)
    else
      var c, front := s[|s| - 1], ParseDigits(s[..|s| - 1]);
      if front.Some? && '0' <= c <= '9' then Some(10 * front.value + (c as int - '0' as int)) else None
  }

  /** `str::parse::<usize>`: an optional `+`, then one digit or more. */
  function ParseNumber(s: string): Option<nat>
  {
    var digits := if s != "" && s[0] == '+' then s[1..] else s;
    if digits == "" then None else ParseDigits(digits)
  }

  lemma {:induction false} DecimalParses(n: nat)
    ensures ParseDigits(Decimal(n)) == Some(n)
  {
    var s := Decimal(n);
    if n < 10 {
      assert s[..0] == "";
    } else {
      DecimalParses(n / 10);
      assert s[..|s| - 1] == Decimal(n / 10);
    }
  }

  lemma DecimalInjective(n: nat, k: nat)
    requires Decimal(n) == Decimal(k)
    ensures n == k
  {
    DecimalParses(n);
    DecimalParses(k);
  }

  function EventId(n: nat): string { "event:" + Decimal(n) }

  function FactId(kind: string, key: string, pred: string, n: nat): string
  {
    "fact:" + kind + ":" + key + ":" + pred + ":" + Decimal(n)
  }

  /** `id.strip_prefix("event:").and_then(parse)`. */
  function EventNumber(id: string): Option<nat>
  {
    if "event:" <= id then ParseNumber(id[6..]) else None
  }

  lemma EventNumberOfId(n: nat)
    ensures EventNumber(EventId(n)) == Some(n)
  {
    assert EventId(n)[6..] == Decimal(n);
    assert Decimal(n)[0] != '+';
    DecimalParses(n);
  }

  lemma EventIdInjective(n: nat, k: nat)
    requires EventId(n) == EventId(k)
    ensures n == k
  {
    EventNumberOfId(n);
    EventNumberOfId(k);
  }

  /** A fact id determines the number it was minted with, whatever colons its names contain. */
  lemma FactIdNumber(kind: string, key: string, pred: string, n: nat, kind': string, key': string, pred': string, k: nat)
    requires FactId(kind, key, pred, n) == FactId(kind', key', pred', k)
    ensures n == k
  {
    var a, b := "fact:" + kind + ":" + key + ":" + pred, "fact:" + kind' + ":" + key' + ":" + pred';
    assert a + ":" + Decimal(n) == b + ":" + Decimal(k);
    AfterLastColon(a, Decimal(n), b, Decimal(k));
    DecimalInjective(n, k);
  }

  lemma AfterLastColon(a: string, d: string, b: string, e: string)
    requires a + ":" + d == b + ":" + e
    requires forall i :: 0 <= i < |d| ==> '0' <= d[i] <= '9'
    requires forall i :: 0 <= i < |e| ==> '0' <= e[i] <= '9'
    ensures d == e
  {
    var s := a + ":" + d;
    assert s[|a|] == ':' && s[|b|] == ':';
    assert forall i :: |a| < i < |s| ==> s[i] == d[i - |a| - 1] != ':';
    assert forall i :: |b| < i < |s| ==> s[i] == e[i - |b| - 1] != ':';
    assert s[|a| + 1..] == d && s[|b| + 1..] == e;
  }
}
