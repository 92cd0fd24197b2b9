/** Hexadecimal numbers of src/Hex.c. */
module Hex {
  import opened Arithmetic
  import opened Wrappers

  function HexDigit(c: char): Option<nat> {
    if 'a' <= c <= 'f' then Some(c as int - 'a' as int + 10)
    else if 'A' <= c <= 'F' then Some(c as int - 'A' as int + 10)
    else if '0' <= c <= '9' then Some(c as int - '0' as int)
    else None
  }

  ghost predicate IsHex(s: string) {
    forall c | c in s :: HexDigit(c).Some?
  }

  /** The number that a string of hexadecimal digits denotes. */
  ghost function HexValue(s: string): nat
    requires IsHex(s)
  {
    if s == "" then 0 else 16 * HexValue(s[..|s| - 1]) + HexDigit(s[|s| - 1]).value
  }

  function Times16(d: nat, k: nat): (p: nat)
    ensures d > 0 ==> p > 0
  {
    if k == 0 then d else 16 * Times16(d, k - 1)
  }

  lemma {:induction false} HexFromLeft(s: string)
    requires IsHex(s) && s != ""
    ensures HexValue(s) == Times16(HexDigit(s[0]).value, |s| - 1) + HexValue(s[1..])
    decreases |s|
  {
    if |s| > 1 {
      var init := s[..|s| - 1];
      HexFromLeft(init);
      assert init[0] == s[0] && s[1..][..|s| - 2] == init[1..];
    }
  }

  lemma {:induction false} Times16Product(d: nat, k: nat)
    ensures Times16(d, k) == d * Times16(1, k)
  {
    if k > 0 {
      Times16Product(d, k - 1);
    }
  }

  const WORD := 0x1_0000_0000_0000_0000

  /** A 64-bit word read as a signed number. */
  function Signed(n: nat): int
    requires n < WORD
  {
    if n < WORD / 2 then n else n - WORD
  }

  /** The signed 64-bit number that a string of hexadecimal digits becomes; -1 also stands
      for a string that is none. */
  ghost function HexRead(s: string): int {
    if IsHex(s) then Signed(HexValue(s) % WORD) else -1
  }

  lemma WordsOff(n: int, k: int)
    ensures (n + WORD * k) % WORD == n % WORD
  {
  }

  lemma WrapSum(a: nat, d: nat, m: nat)
    ensures (Signed(a % WORD) + d * (m % WORD)) % WORD == (a + d * m) % WORD
  {
    var x, y, p := Signed(a % WORD), m % WORD, m / WORD;
    var q := if x < 0 then a / WORD + 1 else a / WORD;
    assert a == x + WORD * q && m == y + WORD * p;
    assert d * m == d * y + WORD * (d * p);
    WordsOff(x + d * y, q + d * p);
  }

  /** One more digit in front. */
  lemma HexStep(s: string, i: nat, total: int, multiplier: nat)
    requires 0 < i <= |s| && IsHex(s[i..]) && HexDigit(s[i - 1]).Some?
    requires total == Signed(HexValue(s[i..]) % WORD) && multiplier == Times16(1, |s| - i) % WORD
    ensures IsHex(s[i - 1..])
    ensures (total + HexDigit(s[i - 1]).value * multiplier) % WORD == HexValue(s[i - 1..]) % WORD
    ensures multiplier * 16 % WORD == Times16(1, |s| - i + 1) % WORD
  {
    var d := HexDigit(s[i - 1]).value;
    assert s[i - 1..][1..] == s[i..] && s[i - 1..] == [s[i - 1]] + s[i..];
    hide HexDigit, HexValue, Signed;
    HexFromLeft(s[i - 1..]);
    Times16Product(d, |s| - i);
    WrapSum(HexValue(s[i..]), d, Times16(1, |s| - i));
    WordsOff(16 * multiplier, 16 * (Times16(1, |s| - i) / WORD));
  }

  /** Reads a non-empty string from its end. The sum and the place value wrap around. */
  method ToInteger(s: string) returns (r: int)
    requires s != ""
    ensures r == HexRead(s)
  {
    assert s[|s|..] == "" && s[0..] == s && Signed(0) == 0;
    hide HexDigit, Signed;
    var total, multiplier: nat, i := 0, 1, |s|;
    while i > 0
      invariant 0 <= i <= |s| && IsHex(s[i..])
      invariant total == Signed(HexValue(s[i..]) % WORD) && multiplier == Times16(1, |s| - i) % WORD
    {
      hide HexValue, Times16;
      var digit := HexDigit(s[i - 1]);
      if digit == None {
        assert s[i - 1] in s;
        return -1;
      }
      HexStep(s, i, total, multiplier);
      total := Signed((total + digit.value * multiplier) % WORD);
      multiplier := multiplier * 16 % WORD;
      i := i - 1;
    }
    return total;
  }

  /** What is read is what is written exactly below 2^63; fifteen digits never go beyond. */
  lemma HexIsExact(s: string)
    requires IsHex(s)
    ensures HexRead(s) == HexValue(s) <==> HexValue(s) < WORD / 2
    ensures |s| <= 15 ==> HexValue(s) < WORD / 2
  {
    if |s| <= 15 {
      HexBound(s, 15);
      assert Times16(1, 15) == 0x1000_0000_0000_0000;
    }
  }

  lemma {:induction false} HexBound(s: string, n: nat)
    requires IsHex(s) && |s| <= n
    ensures HexValue(s) < Times16(1, n)
  {
    if s != "" {
      HexBound(s[..|s| - 1], n - 1);
    } else if n > 0 {
      HexBound(s, n - 1);
    }
  }

  lemma {:induction false} ZerosHex(s: string)
    requires forall i | 0 <= i < |s| :: s[i] == '0'
    ensures IsHex(s) && HexValue(s) == 0
  {
    if s != "" {
      ZerosHex(s[..|s| - 1]);
      assert s == s[..|s| - 1] + "0";
    }
  }

  /** A size of 2^64 reads as 0, which is the size of the last chunk. */
  lemma HexWraps()
    ensures IsHex("10000000000000000") && HexRead("10000000000000000") == 0
  {
    var s := "10000000000000000";
    assert s[1..] == "0000000000000000" && Times16(1, 15) == 0x1000_0000_0000_0000;
    ZerosHex(s[1..]);
    assert IsHex(s);
    HexFromLeft(s);
  }

  // ----- printing

  const SYMBOLS := "0123456789abcdef"
  const CAPITALS := "0123456789ABCDEF"

  /** A number in the sixteen digits of a table. */
  function HexPrinted(n: nat, table: string): (s: string)
    requires |table| == 16
    ensures s != ""
  {
    (if n < 16 then "" else HexPrinted(n / 16, table)) + [table[n % 16]]
  }

  /** The digits have their values, in small letters and in capitals. */
  lemma DigitIs(d: nat, table: string)
    requires d < 16 && (table == SYMBOLS || table == CAPITALS)
    ensures HexDigit(table[d]) == Some(d)
  {
  }

  lemma HexSnoc(s: string, c: char)
    requires IsHex(s) && HexDigit(c).Some?
    ensures IsHex(s + [c]) && HexValue(s + [c]) == 16 * HexValue(s) + HexDigit(c).value
  {
    assert (s + [c])[..|s|] == s;
  }

  lemma {:induction false} HexPrints(n: nat, table: string)
    requires table == SYMBOLS || table == CAPITALS
    ensures IsHex(HexPrinted(n, table)) && HexValue(HexPrinted(n, table)) == n
  {
    DigitIs(n % 16, table);
    hide HexDigit, HexValue;
    if n >= 16 {
      HexPrints(n / 16, table);
      HexSnoc(HexPrinted(n / 16, table), table[n % 16]);
    } else {
      HexNothing();
      HexSnoc("", table[n % 16]);
    }
  }

  lemma HexNothing()
    ensures IsHex("") && HexValue("") == 0
  {
  }

  /** Every number below 2^63 is read back from its digits, and no other is. */
  lemma ReadUndoesPrint(n: nat, table: string)
    requires table == SYMBOLS || table == CAPITALS
    ensures HexRead(HexPrinted(n, table)) == n <==> n < WORD / 2
  {
    HexPrints(n, table);
    HexIsExact(HexPrinted(n, table));
  }

  /** The last k digits of a number, with zeros in front. */
  function HexPadded(n: nat, k: nat): (s: string)
    ensures |s| == k
  {
    if k == 0 then "" else HexPadded(n / 16, k - 1) + [SYMBOLS[n % 16]]
  }

  lemma {:induction false} PaddedZero(k: nat)
    ensures HexPadded(0, k) == seq(k, _ => '0')
  {
    if k > 0 {
      PaddedZero(k - 1);
    }
  }

  /** Six digits are written, however large the number is. */
  method ToString(hex: nat) returns (res: string)
    ensures res == HexPadded(hex, 6)
  {
    var buf := new char[6](_ => '0');
    var n, i := hex, 6;
    PaddedZero(6);
    while i > 0 && (n != 0 || i == 6)
      invariant 0 <= i <= 6
      invariant buf[..i] == seq(i, _ => '0')
      invariant HexPadded(hex, 6) == HexPadded(n, i) + buf[i..]
    {
      ghost var before, zeros := buf[i..], buf[..i];
      i := i - 1;
      buf[i] := SYMBOLS[n % 16];
      assert buf[..i] == zeros[..i];
      assert buf[i..] == [SYMBOLS[n % 16]] + before;
      n := n / 16;
    }
    PaddedZero(i);
    assert buf[..] == buf[..i] + buf[i..];
    return buf[..];
  }

  lemma {:induction false} PaddedValue(n: nat, k: nat)
    ensures IsHex(HexPadded(n, k)) && HexValue(HexPadded(n, k)) == n % Times16(1, k)
  {
    if k == 0 {
      HexNothing();
    } else {
      PaddedValue(n / 16, k - 1);
      DigitIs(n % 16, SYMBOLS);
      HexSnoc(HexPadded(n / 16, k - 1), SYMBOLS[n % 16]);
      LastDigit(n, Times16(1, k - 1));
    }
  }

  lemma LastDigit(n: nat, m: nat)
    requires m > 0
    ensures 16 * (n / 16 % m) + n % 16 == n % (16 * m)
  {
    var q, r := n / 16 / m, n / 16 % m;
    assert n == 16 * (n / 16) + n % 16 && n / 16 == q * m + r;
    assert n == q * (16 * m) + (16 * r + n % 16);
    Remainder(n, 16 * m, q, 16 * r + n % 16);
  }

  /** So a number is read back from what is written of it exactly if it has up to six digits. */
  lemma SixDigitsRead(n: nat)
    ensures HexRead(HexPadded(n, 6)) == n <==> n < 0x100_0000
  {
    PaddedValue(n, 6);
    assert Times16(1, 6) == 0x100_0000;
    hide *;
    HexIsExact(HexPadded(n, 6));
    LowDigits(n);
  }

  lemma LowDigits(n: nat)
    ensures n % 0x100_0000 < WORD / 2 && (n % 0x100_0000 == n <==> n < 0x100_0000)
  {
  }
}
