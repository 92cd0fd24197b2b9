/** Where a request header ends, of src/HTTP/Header.c. */
module HttpHeader {
  /** Control characters are not allowed, line breaks aside; bytes from 128 on are. */
  predicate IsControl(c: char) {
    c < 128 as char && !(32 as char <= c <= 126 as char) && c != '\r' && c != '\n'
  }

  /** A line feed, an optional carriage return and a line feed: n characters at i. */
  ghost predicate BlankLineAt(s: string, i: nat, n: nat) {
    && i + n <= |s|
    && ((n == 2 && s[i] == '\n' && s[i + 1] == '\n')
        || (n == 3 && s[i] == '\n' && s[i + 1] == '\r' && s[i + 2] == '\n'))
  }

  ghost predicate BlankLineEndsAt(s: string, e: nat) {
    (e >= 2 && BlankLineAt(s, e - 2, 2)) || (e >= 3 && BlankLineAt(s, e - 3, 3))
  }

  /** The end of the earliest blank line. */
  ghost predicate IsEarliestEnd(s: string, e: nat) {
    BlankLineEndsAt(s, e) && forall d: nat | d < e :: !BlankLineEndsAt(s, d)
  }

  ghost predicate HasBlankLine(s: string) {
    exists e: nat :: BlankLineEndsAt(s, e)
  }

  /** The last character is never looked at. */
  ghost predicate HasControl(s: string) {
    exists i :: 0 <= i < |s| - 1 && IsControl(s[i])
  }

  ghost function EarliestEnd(s: string, from: nat): (e: nat)
    requires exists d: nat :: d >= from && BlankLineEndsAt(s, d)
    requires from <= |s|
    requires forall d: nat | d < from :: !BlankLineEndsAt(s, d)
    ensures IsEarliestEnd(s, e)
    decreases |s| - from
  {
    if BlankLineEndsAt(s, from) then from else EarliestEnd(s, from + 1)
  }

  ghost function Length(s: string): int {
    if HasBlankLine(s) then EarliestEnd(s, 0) else if HasControl(s) then -1 else 0
  }

  lemma LengthIs(s: string, e: nat)
    requires IsEarliestEnd(s, e)
    ensures Length(s) == e > 0
  {
  }

  /** A line ends in a line feed, with or without a carriage return; a header needs two. */
  lemma EndsOfLines(s: string)
    requires '\n' !in s
    ensures Length(s + "\n\n") == |s| + 2 && Length(s + "\n\r\n") == |s| + 3 && Length(s + "\r\n\r\n") == |s| + 4
    ensures Length(s) <= 0 && Length(s + "\n") <= 0 && Length(s + "\r\n\r") <= 0
  {
    LengthIs(s + "\n\n", |s| + 2);
    LengthIs(s + "\n\r\n", |s| + 3);
    LengthIs(s + "\r\n\r\n", |s| + 4);
    assert !HasBlankLine(s) && !HasBlankLine(s + "\n") && !HasBlankLine(s + "\r\n\r");
  }

  /** Which characters are not allowed. */
  lemma ControlIs(c: char)
    requires c as int < 256
    ensures Length([c, 'x']) == if (c as int < 32 && c != '\r' && c != '\n') || c as int == 127 then -1 else 0
  {
    assert !HasBlankLine([c, 'x']);
    assert IsControl([c, 'x'][0]) == IsControl(c);
  }

  /** A header that was found ends at the same place however much is read behind it. */
  lemma LengthIsFinal(s: string, more: string)
    requires Length(s) > 0
    ensures Length(s + more) == Length(s)
  {
    var e := Length(s);
    assert BlankLineEndsAt(s + more, e);
    forall d: nat | d < e
      ensures !BlankLineEndsAt(s + more, d)
    {
      assert !BlankLineEndsAt(s, d);
    }
    LengthIs(s + more, e);
  }

  /** The verdict "malformed" stays when more is read exactly as long as there is no
      blank line, wherever the control character is. */
  lemma MalformedStays(s: string, more: string)
    requires Length(s) == -1
    ensures Length(s + more) == -1 <==> !HasBlankLine(s + more)
  {
    var i :| 0 <= i < |s| - 1 && IsControl(s[i]);
    assert (s + more)[i] == s[i];
  }

  /** It does not stay in a header that a blank line ends. */
  lemma MalformedIsNotFinal()
    ensures Length([1 as char, 'x']) == -1 && Length([1 as char, 'x'] + "\n\n") == 4
  {
    var s := [1 as char, 'x'];
    assert IsControl(s[0]);
    assert !HasBlankLine(s);
    LengthIs(s + "\n\n", 4);
  }

  /** Positive, the length of the header, if the buffer holds a blank line; else -1 if
      it holds a control character, and 0 if more is needed. */
  method GetLength(str: string) returns (len: int)
    ensures len == Length(str) <= |str|
    ensures len > 0 <==> HasBlankLine(str)
    ensures len > 0 ==> IsEarliestEnd(str, len)
    ensures len <= 0 ==> len == if HasControl(str) then -1 else 0
  {
    len := 0;
    var s, e := 0, |str| - 1;
    while len <= 0 && s < e
      invariant 0 <= s && (s <= e || s == 0)
      invariant len > 0 ==> IsEarliestEnd(str, len)
      invariant len <= 0 ==> forall i: nat, n: nat | BlankLineAt(str, i, n) :: i >= s
      invariant len <= 0 ==> len == if exists i :: 0 <= i < s && IsControl(str[i]) then -1 else 0
      decreases e - s, len <= 0
    {
      if IsControl(str[s]) {
        len := -1;
      } else if str[s] == '\n' && str[s + 1] == '\n' {
        len := s + 2;
      } else if str[s] == '\n' && s + 1 < e && str[s + 1] == '\r' && str[s + 2] == '\n' {
        len := s + 3;
      }
      s := s + 1;
    }
  }
}
