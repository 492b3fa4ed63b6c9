// Strings as the sources print them, and their bytes in UTF-8.
module Text {
  import opened Bytes
  import opened Wrappers

  // ----- Decimal numbers -----

  const DIGITS: string := "0123456789"

  function Digits(n: nat): (s: string)
    ensures s != []
  {
    if n < 10 then [DIGITS[n]] else Digits(n / 10) + [DIGITS[n % 10]]
  }

  // Decimal rendering of an integer.
  function Decimal(n: int): string {
    if n < 0 then "-" + Digits(-n) else Digits(n)
  }

  predicate IsDigit(c: char) {
    '0' <= c <= '9'
  }

  function ParseDigits(s: string): Option<nat> {
    if s == [] then Some(0)
    else
      var rest := ParseDigits(s[..|s| - 1]);
      if rest.None? || !IsDigit(s[|s| - 1]) then None else Some(10 * rest.value + (s[|s| - 1] as int - '0' as int))
  }

  // Reading printed digits returns the number.
  lemma {:induction false} DigitsParse(n: nat)
    ensures ParseDigits(Digits(n)) == Some(n) && forall i :: 0 <= i < |Digits(n)| ==> IsDigit(Digits(n)[i])
  {
    var s := Digits(n);
    if n < 10 {
      assert s[..0] == [];
      assert forall d :: 0 <= d < 10 ==> DIGITS[d] as int == '0' as int + d;
    } else {
      DigitsParse(n / 10);
      assert s[..|s| - 1] == Digits(n / 10);
      assert forall d :: 0 <= d < 10 ==> DIGITS[d] as int == '0' as int + d;
    }
  }

  // Different integers are printed differently, in digits after a sign where they are negative.
  lemma {:induction false} DecimalIsInjective(m: int, n: int)
    ensures Decimal(m) == Decimal(n) <==> m == n
    ensures Decimal(n) != [] && (Decimal(n)[0] == '-' <==> n < 0)
    ensures forall i :: 0 <= i < |Decimal(n)| ==> Decimal(n)[i] == '-' || IsDigit(Decimal(n)[i])
  {
    DigitsParse(if m < 0 then -m else m);
    DigitsParse(if n < 0 then -n else n);
    assert m < 0 ==> Decimal(m)[0] == '-' && Decimal(m)[1..] == Digits(-m);
    assert n < 0 ==> Decimal(n)[0] == '-' && Decimal(n)[1..] == Digits(-n);
  }

  // ----- UTF-8 -----

  // Bytes of one character in UTF-8.
  function Utf8Width(c: char): (w: nat)
    ensures 1 <= w <= 4
  {
    var point := c as int;
    if point < 0x80 then 1 else if point < 0x800 then 2 else if point < 0x1_0000 then 3 else 4
  }

  function Utf8Length(s: string): nat {
    if s == [] then 0 else Utf8Length(s[..|s| - 1]) + Utf8Width(s[|s| - 1])
  }

  lemma {:induction false} Utf8LengthConcat(a: string, b: string)
    ensures Utf8Length(a + b) == Utf8Length(a) + Utf8Length(b)
  {
    if b == [] {
      assert a + b == a;
    } else {
      Utf8LengthConcat(a, b[..|b| - 1]);
      assert (a + b)[..|a + b| - 1] == a + b[..|b| - 1];
    }
  }

  // A continuation byte carries six bits.
  function Continuation(bits: nat): byte {
    (0x80 + bits % 64) as byte
  }

  // The low bits of a number, six to each of n continuation bytes, and the bits above them.
  function Low(p: nat, n: nat): (bytes: seq<byte>)
    ensures |bytes| == n
  {
    if n == 0 then [] else Low(p / 64, n - 1) + [Continuation(p)]
  }

  function High(p: nat, n: nat): nat {
    if n == 0 then p else High(p / 64, n - 1)
  }

  lemma {:induction false} Highs(p: nat)
    ensures High(p, 1) == p / 64 && High(p, 2) == p / 64 / 64 && High(p, 3) == p / 64 / 64 / 64
  {
    assert High(p / 64, 0) == p / 64;
    assert High(p / 64, 1) == High(p / 64 / 64, 0);
    assert High(p / 64, 2) == High(p / 64 / 64, 1) == High(p / 64 / 64 / 64, 0);
  }

  // The lead byte announces the length in its high bits and carries the highest bits of the code point.
  function EncodeChar(c: char): (bytes: seq<byte>)
    ensures bytes != []
  {
    var p := c as int;
    Highs(p);
    if p < 0x80 then [p as byte]
    else if p < 0x800 then [(0xC0 + High(p, 1)) as byte] + Low(p, 1)
    else if p < 0x1_0000 then [(0xE0 + High(p, 2)) as byte] + Low(p, 2)
    else [(0xF0 + High(p, 3)) as byte] + Low(p, 3)
  }

  function Encode(s: string): seq<byte> {
    if s == [] then [] else EncodeChar(s[0]) + Encode(s[1..])
  }

  // How many bytes a lead byte announces, and the bits it carries.
  function Announced(lead: byte): (nat, nat) {
    var b := lead as int;
    if b < 0x80 then (1, b) else if b < 0xE0 then (2, b % 32) else if b < 0xF0 then (3, b % 16) else (4, b % 8)
  }

  function Bits(bytes: seq<byte>, high: nat): nat {
    if bytes == [] then high else Bits(bytes[1..], 64 * high + bytes[0] as int % 64)
  }

  function Decode(bytes: seq<byte>): Option<string>
    decreases |bytes|
  {
    if bytes == [] then Some("")
    else
      var (width, high) := Announced(bytes[0]);
      if |bytes| < width then None
      else
        var p := Bits(bytes[1..width], high);
        if !(p < 0xD800 || 0xE000 <= p < 0x11_0000) then None
        else
          match Decode(bytes[width..])
          case None => None
          case Some(rest) => Some([p as char] + rest)
  }

  lemma {:induction false} BitsAppend(bytes: seq<byte>, last: byte, high: nat)
    ensures Bits(bytes + [last], high) == 64 * Bits(bytes, high) + last as int % 64
  {
    var all := bytes + [last];
    if bytes == [] {
      assert all[1..] == [];
    } else {
      assert all[1..] == bytes[1..] + [last];
      BitsAppend(bytes[1..], last, 64 * high + bytes[0] as int % 64);
    }
  }

  // The high and the low bits make up the number.
  lemma {:induction false} LowBits(p: nat, n: nat)
    ensures Bits(Low(p, n), High(p, n)) == p
  {
    if n > 0 {
      LowBits(p / 64, n - 1);
      BitsAppend(Low(p / 64, n - 1), Continuation(p), High(p / 64, n - 1));
    }
  }

  lemma {:induction false} LeadAnnounces(lead: byte, high: nat)
    ensures lead as int == 0xC0 + high && high < 32 ==> Announced(lead) == (2, high)
    ensures lead as int == 0xE0 + high && high < 16 ==> Announced(lead) == (3, high)
    ensures lead as int == 0xF0 + high && high < 8 ==> Announced(lead) == (4, high)
  {
  }

  lemma {:induction false} CharDecodes(c: char)
    ensures
      var bytes := EncodeChar(c);
      var (width, high) := Announced(bytes[0]);
      width == |bytes| == Utf8Width(c) && Bits(bytes[1..], high) == c as int
  {
    var p := c as int;
    if p >= 0x80 {
      var n := Utf8Width(c) - 1;
      assert EncodeChar(c)[1..] == Low(p, n);
      LowBits(p, n);
      Highs(p);
      LeadAnnounces(EncodeChar(c)[0], High(p, n));
      hide High, Low, Announced, Bits;
    }
  }

  // Decoding the encoded string returns it.
  lemma {:induction false} EncodeDecodes(s: string)
    ensures Decode(Encode(s)) == Some(s)
  {
    if s != [] {
      var c, rest := s[0], s[1..];
      var bytes := Encode(s);
      EncodeDecodes(rest);
      CharDecodes(c);
      var width := |EncodeChar(c)|;
      assert bytes[..width] == EncodeChar(c) && bytes[width..] == Encode(rest);
      assert bytes[1..width] == EncodeChar(c)[1..] && bytes[0] == EncodeChar(c)[0];
      assert s == [c] + rest;
    }
  }

  lemma {:induction false} EncodeConcat(a: string, b: string)
    ensures Encode(a + b) == Encode(a) + Encode(b)
  {
    hide EncodeChar;
    if a == [] {
      assert a + b == b;
    } else {
      EncodeConcat(a[1..], b);
      assert (a + b)[1..] == a[1..] + b;
      assert Encode(a + b) == EncodeChar(a[0]) + Encode(a[1..] + b);
      assert Encode(a) == EncodeChar(a[0]) + Encode(a[1..]);
    }
  }

  // The length counted character by character is that of the encoding.
  lemma {:induction false} Utf8LengthIsEncoded(s: string)
    ensures Utf8Length(s) == |Encode(s)|
  {
    if s != [] {
      CharDecodes(s[0]);
      Utf8LengthIsEncoded(s[1..]);
      Utf8LengthConcat([s[0]], s[1..]);
      assert s == [s[0]] + s[1..] && [s[0]][..0] == [];
      assert Utf8Length([s[0]]) == Utf8Width(s[0]);
    }
  }
}
