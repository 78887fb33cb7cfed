/** Lexical shapes of tokens: the push-literal classifiers of the a10
    translator (shared verbatim by the legacy translator), label tokens, and
    the C library's decimal conversion used for integer operands. */
module Literals {
  import opened Base

  predicate IsDigit(c: char) {
    '0' <= c <= '9'
  }

  predicate AllDigits(s: string) {
    forall i :: 0 <= i < |s| ==> IsDigit(s[i])
  }

  predicate IsBoolean(s: string) {
    s == "true" || s == "false"
  }

  /** Stops at the first character outside '0'..'9'; the empty token passes. */
  function IsInteger(s: string): (b: bool)
    ensures b <==> AllDigits(s)
  {
    if s == [] then true
    else if !IsDigit(s[0]) then false
    else IsInteger(s[1..])
  }

  function CountPoints(s: string): nat {
    if s == [] then 0 else (if s[0] == '.' then 1 else 0) + CountPoints(s[1..])
  }

  /** The float scan with its decimal-point flag: a non-digit is accepted
      only when it is a '.' and no '.' has been seen yet. */
  function FloatScan(s: string, seenPoint: bool): (b: bool)
    ensures b <==> (forall i :: 0 <= i < |s| ==> IsDigit(s[i]) || s[i] == '.')
                   && CountPoints(s) + (if seenPoint then 1 else 0) <= 1
  {
    if s == [] then true
    else if IsDigit(s[0]) then FloatScan(s[1..], seenPoint)
    else if s[0] == '.' && !seenPoint then FloatScan(s[1..], true)
    else false
  }

  predicate IsFloat(s: string) {
    FloatScan(s, false)
  }

  lemma {:induction false} DigitsHaveNoPoint(s: string)
    requires AllDigits(s)
    ensures CountPoints(s) == 0
  {
    if s != [] {
      DigitsHaveNoPoint(s[1..]);
    }
  }

  /** Every integer literal also has the shape of a float literal. */
  lemma IntegerIsFloat(s: string)
    ensures IsInteger(s) ==> IsFloat(s)
  {
    if IsInteger(s) {
      DigitsHaveNoPoint(s);
    }
  }

  /** The push encoding chosen for a literal, tried in the source's order. */
  datatype PushKind = BoolLit | IntLit | FloatLit

  function Classify(s: string): (k: Option<PushKind>)
    ensures k == Some(BoolLit) <==> IsBoolean(s)
    ensures k == Some(IntLit) <==> IsInteger(s)
    ensures k == Some(FloatLit) <==> IsFloat(s) && !IsInteger(s)
    ensures k == None <==> !IsBoolean(s) && !IsFloat(s)
  {
    IntegerIsFloat(s);
    assert IsBoolean(s) ==> !IsDigit(s[0]);
    if IsBoolean(s) then Some(BoolLit)
    else if IsInteger(s) then Some(IntLit)
    else if IsFloat(s) then Some(FloatLit)
    else None
  }

  /** A token whose last character is ':' defines a label. The tokenizer
      never yields an empty token; the empty string is not a label here. */
  predicate IsLabel(t: string) {
    |t| > 0 && t[|t| - 1] == ':'
  }

  function LabelName(t: string): string
    requires IsLabel(t)
  {
    t[..|t| - 1]
  }

  /** getLabelPC: the pc the layout pass bound to a label of the function
      being written; an unbound label aborts. */
  function LabelPc(labels: map<string, nat>, name: string): (r: Result<nat>)
    ensures r.Ok? <==> name in labels
    ensures r.Ok? ==> r.value == labels[name]
  {
    if name in labels then Ok(labels[name]) else Err(LabelNotFound(name))
  }

  function DigitValue(c: char): nat
    requires IsDigit(c)
  {
    (c as int) - ('0' as int)
  }

  /** The value of a run of decimal digits, most significant first. */
  function DecimalValue(d: string): nat
    requires AllDigits(d)
  {
    if d == [] then 0 else 10 * DecimalValue(d[..|d| - 1]) + DigitValue(d[|d| - 1])
  }

  /** The longest prefix made of digits. */
  function LeadingDigits(s: string): (d: string)
    ensures AllDigits(d) && d <= s
    ensures |d| < |s| ==> !IsDigit(s[|d|])
  {
    if s == [] || !IsDigit(s[0]) then [] else [s[0]] + LeadingDigits(s[1..])
  }

  /** atoi/atol/atoll on a token (tokens hold no whitespace): an optional
      sign, then the leading digit run; 0 when there is none. */
  function Atoi(s: string): int {
    if |s| > 0 && s[0] == '-' then -(DecimalValue(LeadingDigits(s[1..]) ) as int)
    else if |s| > 0 && s[0] == '+' then DecimalValue(LeadingDigits(s[1..]))
    else DecimalValue(LeadingDigits(s))
  }

  /** The host's atof, given as the IEEE-754 bit patterns it yields at single
      and at double precision. Only the width of a float operand is modelled;
      its bits come from here. */
  datatype FloatConv = FloatConv(single: string -> int, double: string -> int)

  /** The decimal rendering of a natural number, without sign or leading zeros. */
  function ToDecimal(n: nat): (d: string)
    ensures AllDigits(d) && |d| > 0
  {
    if n < 10 then [(('0' as int) + n) as char]
    else ToDecimal(n / 10) + [(('0' as int) + n % 10) as char]
  }

  /** Reading back a rendered number gives the number. */
  lemma {:induction false} AtoiOfDecimal(n: nat)
    ensures Atoi(ToDecimal(n)) == n
  {
    var d := ToDecimal(n);
    LeadingDigitsOfDigits(d);
    DecimalOfToDecimal(n);
  }

  lemma {:induction false} DecimalOfToDecimal(n: nat)
    ensures DecimalValue(ToDecimal(n)) == n
  {
    var d := ToDecimal(n);
    if n >= 10 {
      DecimalOfToDecimal(n / 10);
      assert d[..|d| - 1] == ToDecimal(n / 10);
    }
  }

  lemma {:induction false} LeadingDigitsOfDigits(d: string)
    requires AllDigits(d)
    ensures LeadingDigits(d) == d
  {
    if d != [] {
      LeadingDigitsOfDigits(d[1..]);
    }
  }
}
