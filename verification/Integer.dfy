/** Parsing and printing of the unsigned types of src/Integer.c, 8 to 64 bits wide.

    Arithmetic narrower than an int is promoted to int, so a product of an 8- or
    16-bit value does not wrap before it is stored. */
module Integer {
  import opened Chars

  datatype ParseResult = Ok(value: nat) | Overflow | Underflow

  newtype Width = w: int | w == 8 || w == 16 || w == 32 || w == 64 witness 8

  /** One more than the largest value of the type. */
  function Modulus(w: Width): nat {
    if w == 8 then 0x100
    else if w == 16 then 0x1_0000
    else if w == 32 then 0x1_0000_0000
    else 0x1_0000_0000_0000_0000
  }

  function DigitOf(c: char): (d: nat)
    requires IsDigit(c)
    ensures d < 10 && "0123456789"[d] == c
  {
    c as int - '0' as int
  }

  function CharOf(d: nat): (c: char)
    requires d < 10
    ensures IsDigit(c) && DigitOf(c) == d
  {
    (d + '0' as int) as char
  }

  predicate Negative(s: string) {
    |s| > 0 && s[0] == '-'
  }

  // ----- the decimal value of a string

  /** The number that the digits of s spell; all other characters are skipped. */
  ghost function Value(s: string): nat {
    if s == "" then 0
    else
      var init, c := s[..|s| - 1], s[|s| - 1];
      if IsDigit(c) then 10 * Value(init) + DigitOf(c) else Value(init)
  }

  ghost function DigitCount(s: string): nat {
    if s == "" then 0 else (if IsDigit(s[0]) then 1 else 0) + DigitCount(s[1..])
  }

  /** d followed by k zeros. */
  ghost function Scaled(d: nat, k: nat): nat {
    if k == 0 then d else 10 * Scaled(d, k - 1)
  }

  lemma ValueSnoc(s: string, c: char)
    ensures Value(s + [c]) == if IsDigit(c) then 10 * Value(s) + DigitOf(c) else Value(s)
  {
    assert (s + [c])[..|s|] == s;
  }

  /** A leading digit counts by its place from the right. */
  lemma {:induction false} ValueFromLeft(s: string)
    requires s != ""
    ensures Value(s) == (if IsDigit(s[0]) then Scaled(DigitOf(s[0]), DigitCount(s[1..])) else 0) + Value(s[1..])
    decreases |s|
  {
    var init, c := s[..|s| - 1], s[|s| - 1];
    if |s| > 1 {
      ValueFromLeft(init);
      ValueSnoc(init[1..], c);
      CountSnoc(init[1..], c);
      assert s[1..] == init[1..] + [c];
    }
  }

  lemma {:induction false} CountSnoc(s: string, c: char)
    ensures DigitCount(s + [c]) == DigitCount(s) + if IsDigit(c) then 1 else 0
  {
    if s != "" {
      assert (s + [c])[1..] == s[1..] + [c];
      CountSnoc(s[1..], c);
    }
  }

  // ----- parsing

  /** What the loop adds up, digits from i on: the value of the digits or, in the
      narrow types, the sum of what each digit's place value is cut down to. */
  ghost function Summed(w: Width, s: string): nat {
    if s == "" then 0
    else (if IsDigit(s[0]) then Term(w, DigitOf(s[0]), DigitCount(s[1..])) else 0) + Summed(w, s[1..])
  }

  ghost function Term(w: Width, d: nat, k: nat): nat {
    if w < 32 then Scaled(d, k) % Modulus(w) else Scaled(d, k)
  }

  ghost function ParseSpec(w: Width, s: string): ParseResult {
    if Negative(s) then Underflow
    else if Summed(w, s) < Modulus(w) then Ok(Summed(w, s))
    else Overflow
  }

  method Parse(w: Width, s: string) returns (r: ParseResult)
    ensures r == ParseSpec(w, s)
  {
    var res, c := 0, 0;
    var neg := |s| > 0 && s[0] == '-';
    var i := |s|;
    while i > 0
      invariant 0 <= i <= |s| && c == DigitCount(s[i..])
      invariant res == Summed(w, s[i..]) < Modulus(w)
    {
      i := i - 1;
      assert s[i..][1..] == s[i + 1..];
      SummedGrows(w, s, i);
      if IsDigit(s[i]) {
        var digit := DigitOf(s[i]);
        if digit != 0 {
          var scaled := Scale(w, digit, c);
          if scaled == Overflow || scaled.value + res >= Modulus(w) {
            return if neg then Underflow else Overflow;
          }
          res := res + scaled.value;
        } else {
          ZeroTerm(w, c);
        }
        c := c + 1;
      }
    }
    assert s[0..] == s;
    return if neg then Underflow else Ok(res);
  }

  /** Multiplies a digit by ten c times in the arithmetic of the type, unless the
      result, divided by ten again, shows that a product was cut off. */
  method Scale(w: Width, digit: nat, c: nat) returns (r: ParseResult)
    requires 0 < digit < 10
    ensures r == (if w >= 32 && Scaled(digit, c) >= Modulus(w) then Overflow else Ok(Term(w, digit, c)))
    ensures r.Ok? ==> r.value < Modulus(w)
  {
    var d := digit;
    for k := 0 to c
      invariant d == Term(w, digit, k) < Modulus(w)
    {
      var product := if w < 32 then d * 10 else d * 10 % Modulus(w);
      TimesTen(w, digit, k);
      if product / 10 != d {
        ScaledGrows(digit, k + 1, c);
        return Overflow;
      }
      d := product % Modulus(w);
    }
    return Ok(d);
  }

  lemma TimesTen(w: Width, d: nat, k: nat)
    ensures w < 32 ==> Term(w, d, k) * 10 % Modulus(w) == Term(w, d, k + 1)
    ensures w >= 32 && Term(w, d, k) < Modulus(w) ==>
              (Term(w, d, k) * 10 % Modulus(w) / 10 == Term(w, d, k) <==> Scaled(d, k + 1) < Modulus(w))
  {
    var x := Scaled(d, k);
    if w == 8 {
      Promoted8(x);
    } else if w == 16 {
      Promoted16(x);
    } else if x < Modulus(w) {
      WrapShows(x, Modulus(w));
    }
  }

  lemma Remainder8(q: nat, r: nat)
    requires r < 0x100
    ensures (0x100 * q + r) % 0x100 == r
  {
  }

  lemma Promoted8(x: nat)
    ensures x % 0x100 * 10 % 0x100 == x * 10 % 0x100
  {
    var q, y := x / 0x100, x % 0x100 * 10;
    Remainder8(10 * q + y / 0x100, y % 0x100);
  }

  lemma Remainder16(q: nat, r: nat)
    requires r < 0x1_0000
    ensures (0x1_0000 * q + r) % 0x1_0000 == r
  {
  }

  lemma Promoted16(x: nat)
    ensures x % 0x1_0000 * 10 % 0x1_0000 == x * 10 % 0x1_0000
  {
    var q, y := x / 0x1_0000, x % 0x1_0000 * 10;
    Remainder16(10 * q + y / 0x1_0000, y % 0x1_0000);
  }

  /** A product that has wrapped around is not ten times its tenth. */
  lemma WrapShows(x: nat, m: nat)
    requires x < m && (m == 0x1_0000_0000 || m == 0x1_0000_0000_0000_0000)
    ensures x * 10 % m / 10 == x <==> x * 10 < m
  {
    var y := x * 10;
    if m == 0x1_0000_0000 {
      assert y >= 0x1_0000_0000 ==> y % 0x1_0000_0000 <= y - 0x1_0000_0000;
    } else {
      assert y >= 0x1_0000_0000_0000_0000 ==> y % 0x1_0000_0000_0000_0000 <= y - 0x1_0000_0000_0000_0000;
    }
  }

  lemma {:induction false} ScaledGrows(d: nat, k: nat, m: nat)
    requires k <= m
    ensures Scaled(d, k) <= Scaled(d, m)
  {
    if k < m {
      ScaledGrows(d, k, m - 1);
    }
  }

  lemma {:induction false} ZeroTerm(w: Width, k: nat)
    ensures Term(w, 0, k) == 0
  {
    ScaledZero(k);
  }

  lemma {:induction false} ScaledZero(k: nat)
    ensures Scaled(0, k) == 0
  {
    if k > 0 {
      ScaledZero(k - 1);
    }
  }

  /** The sum over all digits is at least the sum over the last ones. */
  lemma {:induction false} SummedGrows(w: Width, s: string, i: nat)
    requires i <= |s|
    ensures Summed(w, s[i..]) <= Summed(w, s)
  {
    if i > 0 {
      assert s[1..][i - 1..] == s[i..];
      SummedGrows(w, s[1..], i - 1);
    } else {
      assert s[0..] == s;
    }
  }

  /** In the wide types the sum is the value. */
  lemma {:induction false} SummedIsValue(w: Width, s: string)
    ensures w >= 32 ==> Summed(w, s) == Value(s)
    ensures Value(s) < Modulus(w) ==> Summed(w, s) == Value(s)
  {
    if s != "" {
      SummedIsValue(w, s[1..]);
      ValueFromLeft(s);
    }
  }

  /** For every width: the value of the digits is returned exactly if it fits and the
      string does not start with a minus sign; a minus sign is an underflow. */
  lemma ParseFits(w: Width, s: string)
    ensures ParseSpec(w, s) == Ok(Value(s)) <==> Value(s) < Modulus(w) && !Negative(s)
    ensures ParseSpec(w, s) == Underflow <==> Negative(s)
  {
    SummedIsValue(w, s);
  }

  /** With 32 and 64 bits, every other string is an overflow. */
  lemma WideOverflow(w: Width, s: string)
    requires w >= 32
    ensures ParseSpec(w, s) == Overflow <==> Value(s) >= Modulus(w) && !Negative(s)
  {
    SummedIsValue(w, s);
  }

  // ----- what the narrow types make of numbers that do not fit

  /** The answer that the digits demand. */
  ghost function Demanded(w: Width, s: string): ParseResult {
    if Value(s) < Modulus(w) then Ok(Value(s)) else Overflow
  }

  lemma Remainders(x: nat, y: nat, m: nat)
    requires m == 0x100 || m == 0x1_0000
    ensures (x % m + y) % m == (x + y) % m
  {
    var q := x / m;
    if m == 0x100 {
      assert x == 0x100 * q + x % 0x100;
      Remainder8(q + (x % m + y) / m, (x % m + y) % m);
    } else {
      assert x == 0x1_0000 * q + x % 0x1_0000;
      Remainder16(q + (x % m + y) / m, (x % m + y) % m);
    }
  }

  /** What the narrow types add up differs from the value by multiples of the modulus. */
  lemma {:induction false} SummedIsCongruent(w: Width, s: string)
    requires w < 32
    ensures Summed(w, s) % Modulus(w) == Value(s) % Modulus(w)
  {
    if s != "" {
      SummedIsCongruent(w, s[1..]);
      ValueFromLeft(s);
      var m, rest := Modulus(w), s[1..];
      var x := if IsDigit(s[0]) then Scaled(DigitOf(s[0]), DigitCount(rest)) else 0;
      hide Scaled, Value, DigitCount;
      Remainders(x, Summed(w, rest), m);
      Remainders(Summed(w, rest), x, m);
      Remainders(Value(rest), x, m);
    }
  }

  /** With 8 and 16 bits, a number is refused only if the place values, each cut to the
      width, add up to too much; all others are accepted with their remainder. So the
      answer is right exactly if the number fits or its cut place values do not. */
  lemma NarrowIsExact(w: Width, s: string)
    requires w < 32 && !Negative(s)
    ensures ParseSpec(w, s) == if Summed(w, s) < Modulus(w) then Ok(Value(s) % Modulus(w)) else Overflow
    ensures ParseSpec(w, s) == Demanded(w, s) <==> Value(s) < Modulus(w) || Summed(w, s) >= Modulus(w)
  {
    SummedIsCongruent(w, s);
    SummedIsValue(w, s);
    hide Summed, Value;
  }

  /** A number is less than a one with as many zeros as it has digits. */
  lemma {:induction false} ValueBound(s: string)
    ensures Value(s) < Scaled(1, DigitCount(s))
    decreases |s|
  {
    if s != "" {
      var init, c := s[..|s| - 1], s[|s| - 1];
      ValueBound(init);
      CountSnoc(init, c);
      assert s == init + [c];
    }
  }

  /** Up to two digits, or four, the answer is right; one more digit can make it wrong,
      as `NarrowOverflowMissed` shows. */
  lemma FewDigitsFit(w: Width, s: string)
    requires w < 32 && !Negative(s) && DigitCount(s) <= if w == 8 then 2 else 4
    ensures ParseSpec(w, s) == Ok(Value(s))
  {
    ValueBound(s);
    var most: nat := if w == 8 then 2 else 4;
    ScaledGrows(1, DigitCount(s), most);
    assert Scaled(1, 2) == 10 * Scaled(1, 1) == 100;
    assert Scaled(1, 4) == 10 * Scaled(1, 3) == 100 * Scaled(1, 2);
    ParseFits(w, s);
  }

  ghost function Zeros(k: nat): string {
    if k == 0 then "" else "0" + Zeros(k - 1)
  }

  /** A digit followed by zeros. */
  lemma {:induction false} RoundNumber(w: Width, c: char, k: nat)
    requires IsDigit(c)
    ensures DigitCount(Zeros(k)) == k && Value(Zeros(k)) == 0 && Summed(w, Zeros(k)) == 0
    ensures DigitCount([c] + Zeros(k)) == k + 1
    ensures Value([c] + Zeros(k)) == Scaled(DigitOf(c), k) && Summed(w, [c] + Zeros(k)) == Term(w, DigitOf(c), k)
  {
    if k > 0 {
      RoundNumber(w, '0', k - 1);
      ScaledZero(k - 1);
      ZeroTerm(w, k - 1);
      assert Zeros(k) == ['0'] + Zeros(k - 1);
    }
    var s := [c] + Zeros(k);
    assert s[1..] == Zeros(k);
    ValueFromLeft(s);
  }

  /** The shortest numbers that are accepted with a wrong value: "300" gives 44 with 8
      bits, and "70000" gives 4464 with 16 bits. */
  lemma NarrowOverflowMissed()
    ensures Value("300") == 300 && DigitCount("300") == 3 && ParseSpec(8, "300") == Ok(44)
    ensures Value("70000") == 70000 && DigitCount("70000") == 5 && ParseSpec(16, "70000") == Ok(4464)
  {
    RoundNumber(8, '3', 2);
    assert Zeros(2) == "0" + Zeros(1) == "00";
    assert "300" == ['3'] + Zeros(2);
    assert Scaled(3, 2) == 10 * Scaled(3, 1) == 300;
    RoundNumber(16, '7', 4);
    assert Zeros(4) == "0" + ("0" + Zeros(2)) == "0000";
    assert "70000" == ['7'] + Zeros(4);
    assert Scaled(7, 2) == 10 * Scaled(7, 1) == 700;
    assert Scaled(7, 4) == 10 * Scaled(7, 3) == 100 * Scaled(7, 2) == 70000;
  }

  // ----- printing

  ghost function Decimal(n: nat): (s: string)
    ensures s != ""
  {
    if n < 10 then [CharOf(n)] else Decimal(n / 10) + [CharOf(n % 10)]
  }

  method CountDigits(num: nat) returns (digits: nat)
    ensures digits == |Decimal(num)|
  {
    var n: nat := num / 10;
    digits := 1;
    while n != 0
      invariant n == 0 ==> digits == |Decimal(num)|
      invariant n != 0 ==> digits + |Decimal(n)| == |Decimal(num)|
    {
      n := n / 10;
      digits := digits + 1;
    }
  }

  /** The text, and the size of the buffer that it was written to. */
  method ToString(num: nat) returns (res: string, size: nat)
    ensures res == Decimal(num) && size == |res| + 1
  {
    var digit := CountDigits(num);
    var len := digit;
    var buf := new char[digit + 1];
    var orig := num;
    digit := digit - 1;
    buf[digit] := CharOf(orig % 10);
    orig := orig / 10;
    while orig != 0
      invariant 0 <= digit < len < buf.Length
      invariant if orig == 0 then digit == 0 && buf[..len] == Decimal(num)
                else digit == |Decimal(orig)| && Decimal(orig) + buf[digit..len] == Decimal(num)
      decreases orig
    {
      ghost var before := buf[digit..len];
      digit := digit - 1;
      buf[digit] := CharOf(orig % 10);
      assert buf[digit..len] == [CharOf(orig % 10)] + before;
      orig := orig / 10;
    }
    return buf[..len], buf.Length;
  }

  /** The digits of a number spell it. */
  lemma {:induction false} ValueOfDecimal(n: nat)
    ensures Value(Decimal(n)) == n && !Negative(Decimal(n))
  {
    var s := Decimal(n);
    assert s[..|s| - 1] == if n < 10 then "" else Decimal(n / 10);
    if n >= 10 {
      ValueOfDecimal(n / 10);
      assert s[0] == Decimal(n / 10)[0];
    }
  }

  /** For every unsigned type, parsing undoes printing. */
  lemma ParseUndoesToString(w: Width, n: nat)
    requires n < Modulus(w)
    ensures ParseSpec(w, Decimal(n)) == Ok(n)
  {
    ValueOfDecimal(n);
    ParseFits(w, Decimal(n));
  }

  // ----- what is skipped, and the sign

  /** The digits of a string. */
  function Digits(s: string): string {
    if s == "" then "" else (if IsDigit(s[0]) then [s[0]] else "") + Digits(s[1..])
  }

  /** All characters that are not digits are skipped. */
  lemma {:induction false} OnlyDigitsCount(w: Width, s: string)
    ensures DigitCount(s) == |Digits(s)| == DigitCount(Digits(s)) && Summed(w, Digits(s)) == Summed(w, s)
  {
    if s != "" {
      OnlyDigitsCount(w, s[1..]);
      if IsDigit(s[0]) {
        assert Digits(s)[1..] == Digits(s[1..]);
      } else {
        assert Digits(s) == Digits(s[1..]);
      }
    }
  }

  lemma {:induction false} DigitsAreDigits(s: string)
    ensures forall c | c in Digits(s) :: IsDigit(c)
  {
    if s != "" {
      DigitsAreDigits(s[1..]);
    }
  }

  /** Without a sign in front, a string is parsed as its digits are. */
  lemma ParseSkips(w: Width, s: string)
    requires s == "" || s[0] != '-'
    ensures ParseSpec(w, s) == ParseSpec(w, Digits(s))
  {
    OnlyDigitsCount(w, s);
    DigitsAreDigits(s);
    if Digits(s) != "" {
      assert Digits(s)[0] in Digits(s);
    }
  }

  /** A sign in front makes an underflow of every string, and nothing else does. */
  lemma MinusIsUnderflow(w: Width, s: string, t: string)
    ensures ParseSpec(w, "-" + t) == Underflow
    ensures (s == "" || s[0] != '-') ==> ParseSpec(w, s) != Underflow
  {
  }

  /** Zeros in front of a number change nothing; without digits, it is 0. */
  lemma {:induction false} LeadingZeros(w: Width, k: nat, s: string)
    requires s == "" || s[0] != '-'
    ensures ParseSpec(w, seq(k, _ => '0') + s) == ParseSpec(w, s) && ParseSpec(w, "") == Ok(0)
  {
    if k > 0 {
      var t := seq(k - 1, _ => '0') + s;
      assert (seq(k, _ => '0') + s)[1..] == t;
      LeadingZeros(w, k - 1, s);
      ZeroTerm(w, DigitCount(t));
    } else {
      assert seq(k, _ => '0') + s == s;
    }
  }
}
