/** Decimal numbers as text: how they are written, and how the two parsers here read them back. */
module Decimal {
  import opened Options

  function Digit(d: nat): char
    requires d < 10
  {
    '0' + d as char
  }

  predicate IsDigit(c: char) {
    '0' <= c <= '9'
  }

  // Digits only, at least one.
  function ParseDigits(s: string): Option<nat> {
    if s == [] then None
    else
      var last := s[|s| - 1];
      if !IsDigit(last) then None
      else if |s| == 1 then Some((last - '0') as nat)
      else match ParseDigits(s[..|s| - 1])
        case None => None
        case Some(n) => Some(10 * n + (last - '0') as nat)
  }

  // An optional sign, then digits.
  function ParseSigned(s: string): Option<int> {
    match ParseDigits(if Signed(s) then s[1..] else s)
    case None => None
    case Some(n) => Some(if Signed(s) && s[0] == '-' then -(n as int) else n as int)
  }

  function Write(n: nat): string {
    if n < 10 then [Digit(n)] else Write(n / 10) + [Digit(n % 10)]
  }

  function WriteInt(n: int): string {
    if n < 0 then "-" + Write(-n) else Write(n)
  }

  // Two and four digits, zeros in front.
  function Two(n: nat): string
    requires n < 100
  {
    [Digit(n / 10), Digit(n % 10)]
  }

  function Four(n: nat): string
    requires n < 10000
  {
    Two(n / 100) + Two(n % 100)
  }

  predicate Signed(field: string) {
    field != [] && (field[0] == '-' || field[0] == '+')
  }

  lemma ParseOneMore(s: string, d: nat)
    requires d < 10
    ensures ParseDigits(s + [Digit(d)]) == if s == [] then Some(d)
              else match ParseDigits(s) case None => None case Some(n) => Some(10 * n + d)
  {
    assert (s + [Digit(d)])[..|s|] == s;
  }

  lemma {:induction false} WrittenIsRead(n: nat)
    ensures ParseDigits(Write(n)) == Some(n) && Write(n) != [] && IsDigit(Write(n)[0])
  {
    if n < 10 {
      ParseOneMore([], n);
      assert [] + [Digit(n)] == Write(n);
    } else {
      WrittenIsRead(n / 10);
      ParseOneMore(Write(n / 10), n % 10);
    }
  }

  lemma WrittenIntIsRead(n: int)
    ensures ParseSigned(WriteInt(n)) == Some(n)
  {
    hide ParseDigits, Write;
    if n < 0 {
      WrittenIsRead(-n);
      assert WriteInt(n)[1..] == Write(-n);
    } else {
      WrittenIsRead(n);
      assert !Signed(Write(n));
    }
  }

  lemma {:induction false} DigitsParse(s: string)
    ensures ParseDigits(s).Some? <==> s != [] && forall i :: 0 <= i < |s| ==> '0' <= s[i] <= '9'
  {
    if |s| > 1 {
      DigitsParse(s[..|s| - 1]);
      assert s == s[..|s| - 1] + [s[|s| - 1]];
    }
  }

  lemma DigitOf(c: char)
    requires IsDigit(c)
    ensures Digit((c - '0') as nat) == c
  {
  }

  lemma ReadTwo(s: string)
    requires |s| == 2
    ensures ParseDigits(s)
         == if IsDigit(s[0]) && IsDigit(s[1]) then Some(10 * (s[0] - '0') as nat + (s[1] - '0') as nat) else None
  {
    assert s[..1] == [s[0]];
  }

  lemma ReadThree(s: string)
    requires |s| == 3
    ensures ParseDigits(s).Some? <==> IsDigit(s[0]) && IsDigit(s[1]) && IsDigit(s[2])
    ensures ParseDigits(s).Some? ==>
              ParseDigits(s).value == 100 * (s[0] - '0') as nat + 10 * (s[1] - '0') as nat + (s[2] - '0') as nat
  {
    ReadTwo(s[..2]);
  }

  lemma ReadFour(s: string)
    requires |s| == 4
    ensures ParseDigits(s) == if ParseDigits(s[..2]).Some? && ParseDigits(s[2..]).Some?
                              then Some(100 * ParseDigits(s[..2]).value + ParseDigits(s[2..]).value) else None
  {
    ReadThree(s[..3]);
    ReadTwo(s[..2]);
    ReadTwo(s[2..]);
  }

  lemma TwoIsRead(n: nat)
    requires n < 100
    ensures ParseSigned(Two(n)) == Some(n) && !Signed(Two(n))
  {
    ReadTwo(Two(n));
  }

  lemma FourIsRead(n: nat)
    requires n < 10000
    ensures ParseSigned(Four(n)) == Some(n) && !Signed(Four(n))
  {
    TwoIsRead(n / 100);
    TwoIsRead(n % 100);
    assert Four(n)[..2] == Two(n / 100) && Four(n)[2..] == Two(n % 100);
    ReadFour(Four(n));
    assert Four(n)[0] == Two(n / 100)[0];
    hide Two, ParseDigits, Four;
  }

  // A field is written the way it was read unless it carries a sign.
  lemma TwoReturns(s: string)
    requires |s| == 2 && ParseSigned(s).Some? && !Signed(s)
    ensures 0 <= ParseSigned(s).value < 100 && Two(ParseSigned(s).value) == s
  {
    ReadTwo(s);
    DigitOf(s[0]);
    DigitOf(s[1]);
  }

  lemma PlainHalves(s: string)
    requires |s| == 4 && ParseDigits(s).Some?
    ensures ParseDigits(s[..2]).Some? && ParseDigits(s[2..]).Some? && !Signed(s[..2]) && !Signed(s[2..])
  {
    ReadFour(s);
    ReadTwo(s[..2]);
    ReadTwo(s[2..]);
  }

  lemma FourReturns(s: string)
    requires |s| == 4 && ParseSigned(s).Some? && !Signed(s)
    ensures 0 <= ParseSigned(s).value < 10000 && Four(ParseSigned(s).value) == s
  {
    hide Two, ParseDigits, Signed, IsDigit;
    ReadFour(s);
    PlainHalves(s);
    TwoReturns(s[..2]);
    TwoReturns(s[2..]);
    assert s == s[..2] + s[2..];
  }
}
