/**
 * The lightbox counter, "position / total", as the widget writes it into the
 * page (script.js:129-133): two whole numbers rendered in decimal by a
 * template literal, joined by " / ".
 */
module CounterText {
  import opened Wrappers

  /** What the template literal puts between the position and the total. */
  const Separator: string := " / "

  predicate IsDigit(c: char) {
    '0' <= c <= '9'
  }

  predicate AllDigits(s: string) {
    forall i :: 0 <= i < |s| ==> IsDigit(s[i])
  }

  /** A canonical decimal numeral: digits only, not empty, no leading zero. */
  predicate IsNumeral(s: string) {
    |s| > 0 && AllDigits(s) && (s[0] == '0' ==> |s| == 1)
  }

  /** How a template literal renders a non-negative whole number. */
  function Decimal(n: nat): (s: string)
    ensures IsNumeral(s)
    ensures s[0] == '0' <==> n == 0
    decreases n
  {
    var last := [('0' as int + n % 10) as char];
    if n < 10 then last else Decimal(n / 10) + last
  }

  /** The number a string of digits denotes. */
  function DigitsValue(s: string): nat
    requires AllDigits(s)
  {
    if s == [] then 0
    else DigitsValue(s[..|s| - 1]) * 10 + (s[|s| - 1] as int - '0' as int)
  }

  /** The counter text for a 1-based position among total visible items. */
  function Counter(position: nat, total: nat): string {
    Decimal(position) + Separator + Decimal(total)
  }

  /** Length of the run of digits that starts s. */
  function DigitRun(s: string): (n: nat)
    ensures n <= |s| && AllDigits(s[..n])
    ensures n < |s| ==> !IsDigit(s[n])
  {
    if s == [] || !IsDigit(s[0]) then 0
    else
      var n := 1 + DigitRun(s[1..]);
      assert s[..n] == [s[0]] + s[1..][..n - 1];
      n
  }

  function ParseNumeral(s: string): Option<nat> {
    if IsNumeral(s) then Some(DigitsValue(s)) else None
  }

  /** Reads a counter text back into its position and total. */
  function ParseCounter(s: string): Option<(nat, nat)> {
    var n := DigitRun(s);
    if n + |Separator| <= |s| && s[n..n + |Separator|] == Separator then
      match (ParseNumeral(s[..n]), ParseNumeral(s[n + |Separator|..]))
      case (Some(p), Some(t)) => Some((p, t))
      case _ => None
    else None
  }

  lemma {:induction false} DecimalValue(n: nat)
    ensures DigitsValue(Decimal(n)) == n
    decreases n
  {
    if n >= 10 {
      var s := Decimal(n);
      assert s[..|s| - 1] == Decimal(n / 10);
      DecimalValue(n / 10);
    }
  }

  lemma {:induction false} DigitRunOfNumeral(d: string, rest: string)
    requires AllDigits(d)
    requires rest == [] || !IsDigit(rest[0])
    ensures DigitRun(d + rest) == |d|
  {
    if d != [] {
      assert (d + rest)[1..] == d[1..] + rest;
      DigitRunOfNumeral(d[1..], rest);
    }
  }

  /** The counter text determines the position and the total it shows. */
  lemma CounterRoundTrip(position: nat, total: nat)
    ensures ParseCounter(Counter(position, total)) == Some((position, total))
  {
    var p, t := Decimal(position), Decimal(total);
    var s := Counter(position, total);
    assert s == p + (Separator + t);
    DigitRunOfNumeral(p, Separator + t);
    assert s[..|p|] == p;
    assert s[|p|..|p| + |Separator|] == Separator;
    assert s[|p| + |Separator|..] == t;
    DecimalValue(position);
    DecimalValue(total);
  }
}
