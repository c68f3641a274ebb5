// Decimal integer text as Go's strconv.ParseInt(s, 10, 64) reads it and
// fmt's %d writes it. Used by the form-value reader of the web handler
// (webapp/go/handler.go) and by the portal's job setup.
module Strconv {
  import opened Common

  datatype ParseResult = Parsed(value: int) | SyntaxError | RangeError

  predicate IsDigit(c: char)
  {
    '0' <= c <= '9'
  }

  predicate AllDigits(s: string)
  {
    forall i :: 0 <= i < |s| ==> IsDigit(s[i])
  }

  /** The value of a run of decimal digits, most significant first. */
  function DigitsValue(s: string): (n: nat)
    requires AllDigits(s)
  {
    if s == [] then 0
    else DigitsValue(s[..|s| - 1]) * 10 + (s[|s| - 1] as int - '0' as int)
  }

  /** Decimal digits of a natural number without leading zeros. */
  function FormatNat(n: nat): (s: string)
    ensures |s| >= 1 && AllDigits(s)
    ensures s[0] == '0' <==> n == 0
  {
    if n < 10 then [('0' as int + n) as char]
    else FormatNat(n / 10) + [('0' as int + n % 10) as char]
  }

  /** fmt.Sprintf("%d", n). */
  function FormatInt(n: int): (s: string)
    ensures |s| >= 1
    ensures s[0] == '-' <==> n < 0
  {
    if n < 0 then "-" + FormatNat(-n) else FormatNat(n)
  }

  /**
   * strconv.ParseInt(s, 10, 64): an optional sign, then one or more decimal
   * digits; a value outside int64 is a range error.
   */
  function ParseInt(s: string): (r: ParseResult)
    ensures r.Parsed? ==> IsInt64(r.value)
    ensures s == [] ==> r == SyntaxError
  {
    if s == [] then SyntaxError
    else
      var neg := s[0] == '-';
      var body := if s[0] == '+' || s[0] == '-' then s[1..] else s;
      if body == [] || !AllDigits(body) then SyntaxError
      else
        var u := DigitsValue(body);
        if neg && u > -Int64Min then RangeError
        else if !neg && u > Int64Max then RangeError
        else
          var v: int := if neg then 0 - (u as int) else u;
          Parsed(v)
  }

  lemma {:induction false} DigitsValueOfFormat(n: nat)
    ensures DigitsValue(FormatNat(n)) == n
  {
    if n >= 10 {
      var s := FormatNat(n);
      assert s[..|s| - 1] == FormatNat(n / 10);
      DigitsValueOfFormat(n / 10);
    }
  }

  /** Writing an int64 in decimal and reading it back gives the same number. */
  lemma ParseFormatRoundTrip(n: int)
    requires IsInt64(n)
    ensures ParseInt(FormatInt(n)) == Parsed(n)
  {
    var s := FormatInt(n);
    if n < 0 {
      var d := FormatNat(-n);
      assert s == "-" + d;
      assert s[1..] == d;
      DigitsValueOfFormat(-n);
      assert DigitsValue(d) == -n;
    } else {
      var d := FormatNat(n);
      assert s == d && s[0] != '+' && s[0] != '-';
      DigitsValueOfFormat(n);
    }
  }

  /** Every successful parse reads only signs and digits, and at least one digit. */
  lemma ParsedTextIsNumeric(s: string)
    requires ParseInt(s).Parsed?
    ensures |s| >= 1
    ensures forall i :: 1 <= i < |s| ==> IsDigit(s[i])
    ensures IsDigit(s[0]) || ((s[0] == '+' || s[0] == '-') && |s| >= 2)
  {
    var body := if s[0] == '+' || s[0] == '-' then s[1..] else s;
    assert AllDigits(body);
    if s[0] == '+' || s[0] == '-' {
      forall i | 1 <= i < |s| ensures IsDigit(s[i]) { assert s[i] == body[i - 1]; }
    }
  }
}
