/**
  Time in the model. The helper keeps every instant in the session as text
  (`DateTime.ToString`) and reads expiries back with `Convert.ToDateTime`;
  here an instant is a whole number of seconds, `Render` is its text and
  `Parse` reads such text back.
 */
module Clock {
  import opened Optional

  /** Seconds on the server's clock. */
  type Instant = int

  const Minute: int := 60

  /** Decimal digit characters. */
  predicate IsDigit(c: char) {
    '0' <= c <= '9'
  }

  function DigitChar(d: int): (c: char)
    requires 0 <= d < 10
    ensures IsDigit(c)
  {
    (('0' as int) + d) as char
  }

  function DigitValue(c: char): (d: int)
    requires IsDigit(c)
    ensures 0 <= d < 10
  {
    (c as int) - ('0' as int)
  }

  /** Decimal text of a natural number, most significant digit first. */
  function Digits(n: nat): (r: string)
    ensures |r| > 0
    ensures forall i :: 0 <= i < |r| ==> IsDigit(r[i])
  {
    if n < 10 then [DigitChar(n)] else Digits(n / 10) + [DigitChar(n % 10)]
  }

  /** The text an instant is stored as. */
  function Render(t: Instant): string {
    if t < 0 then "-" + Digits(-t) else Digits(t)
  }

  /** Reads a non-empty run of decimal digits; anything else is not a number. */
  function ParseDigits(s: string): Option<nat>
    decreases |s|
  {
    if |s| == 0 || !IsDigit(s[|s| - 1]) then None
    else if |s| == 1 then Some(DigitValue(s[0]))
    else
      match ParseDigits(s[..|s| - 1])
      case None => None
      case Some(n) => Some(n * 10 + DigitValue(s[|s| - 1]))
  }

  /**
    Reads the text of an instant: an optional minus sign and digits. Text of
    any other shape is not an instant (`Convert.ToDateTime` would raise a
    `FormatException`).
   */
  function Parse(s: string): Option<Instant> {
    if |s| > 0 && s[0] == '-' then
      match ParseDigits(s[1..])
      case None => None
      case Some(n) => Some(0 - n)
    else
      match ParseDigits(s)
      case None => None
      case Some(n) => Some(n)
  }

  /** Reading the digits of `n` gives back `n`. */
  lemma {:induction false} ParseDigitsOfDigits(n: nat)
    ensures ParseDigits(Digits(n)) == Some(n)
  {
    if n >= 10 {
      var s := Digits(n);
      ParseDigitsOfDigits(n / 10);
      assert s[..|s| - 1] == Digits(n / 10);
      assert DigitValue(s[|s| - 1]) == n % 10;
    }
  }

  /** An instant written to the session reads back as the same instant. */
  lemma ParseRender(t: Instant)
    ensures Parse(Render(t)) == Some(t)
  {
    if t < 0 {
      ParseDigitsOfDigits(-t);
      assert Render(t)[1..] == Digits(-t);
    } else {
      ParseDigitsOfDigits(t);
      assert Render(t)[0] != '-';
    }
  }

  /** Distinct instants have distinct texts, so a key built from one names one instant. */
  lemma RenderInjective(t: Instant, u: Instant)
    requires Render(t) == Render(u)
    ensures t == u
  {
    ParseRender(t);
    ParseRender(u);
  }

  /** The text of an instant holds no `#`, the separator inside cache keys. */
  lemma RenderHasNoHash(t: Instant)
    ensures '#' !in Render(t)
  {
  }
}
