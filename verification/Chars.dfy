/** Character classes of src/Char.c and trimming. */
module Chars {
  predicate IsSpace(c: char) {
    c == ' ' || c == '\t' || c == '\n' || c == '\r' || c == '\0' || c == 11 as char
  }

  predicate IsAlpha(c: char) {
    'a' <= c <= 'z' || 'A' <= c <= 'Z'
  }

  predicate IsDigit(c: char) {
    '0' <= c <= '9'
  }

  function TrimLeft(s: string): (t: string)
    ensures |t| <= |s|
  {
    if s == "" || !IsSpace(s[0]) then s else TrimLeft(s[1..])
  }

  function TrimRight(s: string): (t: string)
    ensures |t| <= |s|
  {
    if s == "" || !IsSpace(s[|s| - 1]) then s else TrimRight(s[..|s| - 1])
  }

  function Trim(s: string): string {
    TrimRight(TrimLeft(s))
  }

  /** Exactly the white space in front is gone. */
  lemma {:induction false} TrimLeftIs(s: string)
    ensures var t := TrimLeft(s);
            && t == s[|s| - |t|..] && (t != "" ==> !IsSpace(t[0]))
            && forall c | c in s[..|s| - |t|] :: IsSpace(c)
  {
    if s != "" && IsSpace(s[0]) {
      TrimLeftIs(s[1..]);
      hide IsSpace;
      var t := TrimLeft(s);
      assert s[..|s| - |t|] == [s[0]] + s[1..][..|s[1..]| - |t|];
    }
  }

  /** Exactly the white space at the end is gone. */
  lemma {:induction false} TrimRightIs(s: string)
    ensures var t := TrimRight(s);
            && t == s[..|t|] && (t != "" ==> !IsSpace(t[|t| - 1]))
            && forall c | c in s[|t|..] :: IsSpace(c)
  {
    if s != "" && IsSpace(s[|s| - 1]) {
      TrimRightIs(s[..|s| - 1]);
      hide IsSpace;
      var t := TrimRight(s);
      assert s[|t|..] == s[..|s| - 1][|t|..] + [s[|s| - 1]];
    }
  }

  lemma TrimmedAway(s: string)
    ensures (forall c | c in s :: IsSpace(c)) <==> Trim(s) == ""
  {
    TrimLeftIs(s);
    TrimRightIs(TrimLeft(s));
    hide IsSpace, TrimLeft, TrimRight;
    var a, b := TrimLeft(s), Trim(s);
    assert s == s[..|s| - |a|] + a && a == b + a[|b|..];
    if b != "" {
      assert b[0] == a[0] && a[0] in s;
    }
  }

  lemma Untrimmed(s: string)
    requires s != "" && !IsSpace(s[0]) && !IsSpace(s[|s| - 1])
    ensures TrimLeft(s) == s && TrimRight(s) == s && Trim(s) == s
  {
    hide IsSpace;
  }

  lemma TrimLeftChar(c: char, s: string)
    requires IsSpace(c)
    ensures TrimLeft([c] + s) == TrimLeft(s)
  {
    assert ([c] + s)[1..] == s;
  }

  lemma TrimRightChar(s: string, c: char)
    requires IsSpace(c)
    ensures TrimRight(s + [c]) == TrimRight(s)
  {
    assert (s + [c])[..|s|] == s;
  }

  /** The six white space characters, of which three are in front of a text and three behind it. */
  lemma TrimHere(text: string)
    requires text != "" && text[0] == 'a' && text[|text| - 1] == 'z'
    ensures Trim([' '] + (['\t'] + (['\n'] + (text + ['\r'] + ['\0'] + [11 as char])))) == text
    ensures forall c | 8 as char == c || c == 12 as char || 13 as char < c < 32 as char || c > 32 as char :: !IsSpace(c)
  {
    var t := text + ['\r'] + ['\0'] + [11 as char];
    TrimLeftChar(' ', ['\t'] + (['\n'] + t));
    TrimLeftChar('\t', ['\n'] + t);
    TrimLeftChar('\n', t);
    assert t[0] == 'a';
    TrimRightChar(text + ['\r'] + ['\0'], 11 as char);
    TrimRightChar(text + ['\r'], '\0');
    TrimRightChar(text, '\r');
  }
}
