/** Formatting with `%` place holders and parsing against such a pattern, of
    src/String.c. In a format, `!%` stands for a percent sign; a pattern knows no
    such escape. */
module Format {
  import opened Wrappers
  import opened Positions
  import opened Search
  import opened Sequences

  // ----- formatting

  function Prefixed(s: string, rest: Option<string>): Option<string> {
    if rest.Some? then Some(s + rest.value) else None
  }

  /** What the writing pass makes of the format from i on; None stands for the
      exception that too few arguments raise. */
  ghost function Fmt(fmt: string, args: seq<string>, i: nat): Option<string>
    requires i <= |fmt|
    decreases |fmt| - i
  {
    if i == |fmt| then Some("")
    else if fmt[i] == '!' && i + 1 < |fmt| && fmt[i + 1] == '%' then Prefixed("%", Fmt(fmt, args, i + 2))
    else if fmt[i] == '%' then
      if args == [] then None else Prefixed(args[0], Fmt(fmt, args[1..], i + 1))
    else Prefixed([fmt[i]], Fmt(fmt, args, i + 1))
  }

  function Longer(n: nat, rest: Option<nat>): Option<nat> {
    if rest.Some? then Some(n + rest.value) else None
  }

  /** What the measuring pass, which looks back instead of ahead, counts from i on. */
  ghost function Measure(fmt: string, args: seq<string>, i: nat): Option<nat>
    requires i <= |fmt|
    decreases |fmt| - i
  {
    if i == |fmt| then Some(0)
    else if fmt[i] != '%' then Longer(1, Measure(fmt, args, i + 1))
    else if i > 0 && fmt[i - 1] == '!' then Measure(fmt, args, i + 1)
    else if args == [] then None
    else Longer(|args[0]|, Measure(fmt, args[1..], i + 1))
  }

  /** Wherever the writing pass can stand, both passes agree on the length and on
      whether there are arguments enough. */
  lemma {:induction false} MeasureIsLength(fmt: string, args: seq<string>, i: nat)
    requires i <= |fmt|
    requires 0 < i < |fmt| && fmt[i - 1] == '!' ==> fmt[i] != '%'
    ensures match Fmt(fmt, args, i)
            case None => Measure(fmt, args, i) == None
            case Some(s) => Measure(fmt, args, i) == Some(|s|)
    decreases |fmt| - i
  {
    if i < |fmt| {
      if fmt[i] == '!' && i + 1 < |fmt| && fmt[i + 1] == '%' {
        MeasureIsLength(fmt, args, i + 2);
        assert Measure(fmt, args, i) == Longer(1, Measure(fmt, args, i + 1)) == Longer(1, Measure(fmt, args, i + 2));
      } else if fmt[i] == '%' {
        if args != [] {
          MeasureIsLength(fmt, args[1..], i + 1);
        }
      } else {
        MeasureIsLength(fmt, args, i + 1);
      }
    }
  }

  method MeasurePass(fmt: string, args: seq<string>) returns (r: Option<nat>)
    ensures r == Measure(fmt, args, 0)
  {
    var len, k := 0, 0;
    for i := 0 to |fmt|
      invariant 0 <= k <= |args| && 0 <= len
      invariant Measure(fmt, args, 0) == Longer(len, Measure(fmt, args[k..], i))
    {
      if fmt[i] == '%' {
        if i == 0 || fmt[i - 1] != '!' {
          if k == |args| {
            return None;
          }
          len := len + |args[k]|;
          assert args[k..][1..] == args[k + 1..];
          k := k + 1;
        }
      } else {
        len := len + 1;
      }
    }
    return Some(len);
  }

  /** Formatting into a new string. The writing pass stays inside the buffer that was
      measured before, and fills it. */
  method Format(fmt: string, args: seq<string>) returns (r: Option<string>, size: nat)
    ensures r == Fmt(fmt, args, 0) && (r.Some? ==> size == |r.value|)
  {
    MeasureIsLength(fmt, args, 0);
    var len := MeasurePass(fmt, args);
    if len == None {
      return None, 0;
    }
    var buf := new char[len.value];
    ghost var all := Fmt(fmt, args, 0).value;
    var n, k, i := 0, 0, 0;
    while i < |fmt|
      invariant 0 <= i <= |fmt| && 0 <= k <= |args| && 0 <= n <= buf.Length
      invariant Fmt(fmt, args[k..], i).Some?
      invariant buf[..n] + Fmt(fmt, args[k..], i).value == all
    {
      FmtStep(fmt, args, i, k);
      if i + 1 < |fmt| && fmt[i] == '!' && fmt[i + 1] == '%' {
        n := Put(buf, n, "%", all, Fmt(fmt, args[k..], i + 2).value);
        i := i + 1;
      } else if fmt[i] == '%' {
        n := Put(buf, n, args[k], all, Fmt(fmt, args[k + 1..], i + 1).value);
        k := k + 1;
      } else {
        n := Put(buf, n, [fmt[i]], all, Fmt(fmt, args[k..], i + 1).value);
      }
      i := i + 1;
    }
    assert buf[..] == buf[..n] + "" == all;
    return Some(buf[..]), buf.Length;
  }

  lemma FmtStep(fmt: string, args: seq<string>, i: nat, k: nat)
    requires i < |fmt| && k <= |args|
    ensures Fmt(fmt, args[k..], i) ==
      if fmt[i] == '!' && i + 1 < |fmt| && fmt[i + 1] == '%' then Prefixed("%", Fmt(fmt, args[k..], i + 2))
      else if fmt[i] == '%' then
        if k == |args| then None else Prefixed(args[k], Fmt(fmt, args[k + 1..], i + 1))
      else Prefixed([fmt[i]], Fmt(fmt, args[k..], i + 1))
  {
    if k < |args| {
      assert args[k..][1..] == args[k + 1..];
    }
  }

  /** Copies s behind the first n characters; there is room, as n characters, s and
      the rest make up the whole. */
  method Put(buf: array<char>, n: nat, s: string, ghost all: string, ghost rest: string) returns (n': nat)
    requires n <= buf.Length == |all| && buf[..n] + (s + rest) == all
    modifies buf
    ensures n' == n + |s| <= buf.Length && buf[..n'] + rest == all
  {
    assert all == buf[..n] + s + rest;
    ghost var before := buf[..n];
    for j := 0 to |s|
      invariant buf[..n + j] == before + s[..j]
    {
      buf[n + j] := s[j];
    }
    assert s[..|s|] == s;
    n' := n + |s|;
  }

  // ----- what a format prints

  /** A text with its percent signs escaped. */
  function Escaped(t: string): string {
    if t == "" then "" else (if t[0] == '%' then "!%" else [t[0]]) + Escaped(t[1..])
  }

  /** Escaped texts with place holders between them. */
  function Template(ts: seq<string>): string
    requires ts != []
  {
    Escaped(ts[0]) + (if |ts| == 1 then "" else "%" + Template(ts[1..]))
  }

  /** The texts with arguments between them. */
  function Woven(ts: seq<string>, args: seq<string>): string
    requires 0 < |ts| <= |args| + 1
  {
    ts[0] + (if |ts| == 1 then "" else args[0] + Woven(ts[1..], args[1..]))
  }

  /** A text that ends in an exclamation mark would escape a place holder behind it. */
  predicate Open(t: string) {
    t == "" || t[|t| - 1] != '!'
  }

  lemma PrefixedTwice(a: string, b: string, rest: Option<string>)
    ensures Prefixed(a, Prefixed(b, rest)) == Prefixed(a + b, rest) && Prefixed("", rest) == rest
  {
    if rest.Some? {
      assert a + (b + rest.value) == a + b + rest.value;
      assert "" + rest.value == rest.value;
    }
  }

  /** What the first character of a text is escaped to. */
  function EscapedChar(c: char): string {
    if c == '%' then "!%" else [c]
  }

  lemma EscapedCons(t: string, post: string)
    requires t != ""
    ensures Escaped(t) + post == EscapedChar(t[0]) + (Escaped(t[1..]) + post)
    ensures |Escaped(t)| == |EscapedChar(t[0])| + |Escaped(t[1..])|
  {
    Assoc(EscapedChar(t[0]), Escaped(t[1..]), post);
  }

  lemma EscapedNothing()
    ensures Escaped("") == ""
  {
  }

  lemma EscapedStart(t: string, post: string)
    requires t != "" || post == "" || post[0] != '%'
    ensures Escaped(t) + post != "" ==> (Escaped(t) + post)[0] != '%'
  {
    if t != "" {
      EscapedCons(t, post);
    }
  }

  lemma {:induction false} EscapedPrints(fmt: string, args: seq<string>, i: nat, t: string, post: string)
    requires Rest(fmt, i, Escaped(t) + post) && (Open(t) || post == "" || post[0] != '%')
    ensures Rest(fmt, i + |Escaped(t)|, post)
    ensures Fmt(fmt, args, i) == Prefixed(t, Fmt(fmt, args, i + |Escaped(t)|))
    decreases |t|
  {
    hide *;
    Behind(fmt, i, Escaped(t), post);
    if t == "" {
      EscapedNothing();
      PrefixedTwice("", "", Fmt(fmt, args, i));
    } else {
      EscapedStep(fmt, args, i, t, post);
      EscapedCons(t, post);
      var n := |EscapedChar(t[0])|;
      EscapedPrints(fmt, args, i + n, t[1..], post);
      PrefixedTwice([t[0]], t[1..], Fmt(fmt, args, i + |Escaped(t)|));
      assert [t[0]] + t[1..] == t;
    }
  }

  /** The next character of an escaped text is printed. */
  lemma EscapedStep(fmt: string, args: seq<string>, i: nat, t: string, post: string)
    requires Rest(fmt, i, Escaped(t) + post) && t != "" && (Open(t) || post == "" || post[0] != '%')
    ensures var n := |EscapedChar(t[0])|;
            && Rest(fmt, i + n, Escaped(t[1..]) + post) && (Open(t[1..]) || post == "" || post[0] != '%')
            && Fmt(fmt, args, i) == Prefixed([t[0]], Fmt(fmt, args, i + n))
  {
    var head, more := EscapedChar(t[0]), Escaped(t[1..]) + post;
    EscapedCons(t, post);
    Behind(fmt, i, head, more);
    assert fmt[i] == head[0];
    if t[0] == '%' {
      assert fmt[i + 1] == head[1];
    } else if t[0] == '!' {
      EscapedStart(t[1..], post);
    }
    if t[1..] != "" {
      assert t[1..][|t| - 2] == t[|t| - 1];
    }
    hide Escaped, Rest;
  }

  /** Formatting puts the arguments between the texts; too few of them are an error. */
  lemma {:induction false} TemplateFormats(fmt: string, i: nat, ts: seq<string>, args: seq<string>)
    requires ts != [] && Rest(fmt, i, Template(ts)) && forall k | 0 <= k < |ts| - 1 :: Open(ts[k])
    ensures Fmt(fmt, args, i) == if |args| + 1 < |ts| then None else Some(Woven(ts, args))
    decreases |ts|
  {
    var post := if |ts| == 1 then "" else "%" + Template(ts[1..]);
    var j := i + |Escaped(ts[0])|;
    EscapedPrints(fmt, args, i, ts[0], post);
    if |ts| == 1 {
      assert j == |fmt| && ts[0] + "" == ts[0];
    } else {
      hide Escaped, Rest, Template;
      Behind(fmt, j, "%", Template(ts[1..]));
      if args != [] {
        TemplateFormats(fmt, j + 1, ts[1..], args[1..]);
      }
      hide Fmt;
      HolePrints(fmt, j, args);
    }
  }

  lemma HolePrints(fmt: string, j: nat, args: seq<string>)
    requires j < |fmt| && fmt[j] == '%'
    ensures Fmt(fmt, args, j) == if args == [] then None else Prefixed(args[0], Fmt(fmt, args[1..], j + 1))
  {
  }

  // ----- parsing

  ghost function FirstChar(s: string, c: char): Option<nat> {
    if s == "" then None
    else if s[0] == c then Some(0)
    else var r := FirstChar(s[1..], c); if r.Some? then Some(r.value + 1) else None
  }

  method FindChar(s: string, c: char) returns (r: Option<nat>)
    ensures r == FirstChar(s, c)
    ensures match r case None => c !in s case Some(i) => i < |s| && s[i] == c && c !in s[..i]
  {
    for i := 0 to |s|
      invariant c !in s[..i]
      invariant FirstChar(s, c) == var t := FirstChar(s[i..], c); if t.Some? then Some(t.value + i) else None
    {
      if s[i] == c {
        return Some(i);
      }
      assert s[i..][1..] == s[i + 1..];
    }
    return None;
  }

  /** How much of the subject a place holder takes when the pattern goes on at i with
      a literal: up to the literal text before the next place holder or, when
      there is none, up to the first character of the literal. */
  ghost function CaptureLen(pattern: string, i: nat, value: string): Option<nat>
    requires i < |pattern|
  {
    match FirstChar(pattern[i..], '%')
    case Some(n) => (FirstCharIn(pattern[i..], '%'); FindSpec(value, pattern[i..i + n]))
    case None => FirstChar(value, pattern[i])
  }

  lemma {:induction false} FirstCharIn(s: string, c: char)
    ensures match FirstChar(s, c)
            case None => c !in s
            case Some(i) => i < |s| && s[i] == c && c !in s[..i]
  {
    if s != "" && s[0] != c {
      FirstCharIn(s[1..], c);
      var r := FirstChar(s[1..], c);
      if r.Some? {
        assert s[..r.value + 1] == [s[0]] + s[1..][..r.value];
      }
    }
  }

  ghost function Captured(s: string, rest: Option<seq<string>>): Option<seq<string>> {
    if rest.Some? then Some([s] + rest.value) else None
  }

  /** What parsing yields from pattern position i and subject position subj on;
      `open` is where a place holder has begun to take text. */
  ghost function Run(pattern: string, subject: string, i: nat, subj: nat, open: Option<nat>): Option<seq<string>>
    requires i <= |pattern| && subj <= |subject| && (open.Some? ==> open.value <= |subject|)
    decreases |pattern| - i, open.Some?
  {
    if i == |pattern| then (if open.Some? then Some([subject[open.value..]]) else Some([]))
    else if pattern[i] == '%' then Run(pattern, subject, i + 1, subj, Some(subj))
    else if open.Some? then
      var o := open.value;
      match CaptureLen(pattern, i, subject[o..]) {
        case None => None
        case Some(n) =>
          if o + n <= |subject| then Captured(subject[o..o + n], Run(pattern, subject, i, o + n, None)) else None
      }
    else if subj >= |subject| || subject[subj] != pattern[i] then None
    else Run(pattern, subject, i + 1, subj + 1, None)
  }

  method Parse(pattern: string, subject: string) returns (r: Option<seq<string>>)
    ensures r == Run(pattern, subject, 0, 0, None)
  {
    var subj: nat, open: Option<nat>, caps := 0, None, [];
    BehindNothing(Run(pattern, subject, 0, 0, None));
    for i := 0 to |pattern|
      invariant subj <= |subject| && (open.Some? ==> open.value <= |subject|)
      invariant Run(pattern, subject, 0, 0, None) == CapsBehind(caps, Run(pattern, subject, i, subj, open))
    {
      if pattern[i] == '%' {
        open := Some(subj);
      } else {
        if open.Some? {
          var n := TakeCapture(pattern, i, subject, open.value);
          if n == None {
            return None;
          }
          ghost var rest := Run(pattern, subject, i, open.value + n.value, None);
          BehindMore(caps, subject[open.value..open.value + n.value], rest);
          caps := caps + [subject[open.value..open.value + n.value]];
          subj := open.value + n.value;
          open := None;
        }
        if subj >= |subject| || subject[subj] != pattern[i] {
          return None;
        }
        subj := subj + 1;
      }
    }
    assert caps + [] == caps;
    if open.Some? {
      caps := caps + [subject[open.value..]];
    }
    return Some(caps);
  }

  ghost function CapsBehind(caps: seq<string>, rest: Option<seq<string>>): Option<seq<string>> {
    if rest.Some? then Some(caps + rest.value) else None
  }

  lemma BehindNothing(rest: Option<seq<string>>)
    ensures CapsBehind([], rest) == rest
  {
    if rest.Some? {
      assert [] + rest.value == rest.value;
    }
  }

  lemma BehindMore(caps: seq<string>, s: string, rest: Option<seq<string>>)
    ensures CapsBehind(caps, Captured(s, rest)) == CapsBehind(caps + [s], rest)
  {
    if rest.Some? {
      assert caps + ([s] + rest.value) == caps + [s] + rest.value;
    }
  }

  /** Measures one capture. The source takes a capture that reaches to the end of
      the subject for one whose end was not found, which is the same thing. */
  method TakeCapture(pattern: string, i: nat, subject: string, ofs: nat) returns (n: Option<nat>)
    requires i < |pattern| && pattern[i] != '%' && ofs <= |subject|
    ensures n == CaptureLen(pattern, i, subject[ofs..])
    ensures n.Some? ==> ofs + n.value < |subject|
  {
    var len := |subject| - ofs;
    var value := subject[ofs..];
    var ofsNext := FindChar(pattern[i..], '%');
    if ofsNext.Some? {
      var param := pattern[i..i + ofsNext.value];
      assert param != "" by {
        assert pattern[i..][0] == pattern[i];
      }
      var ofsParam := Find(value, param);
      if ofsParam.Some? {
        len := ofsParam.value;
      }
    } else {
      for j := 0 to |value|
        invariant len == |value|
        invariant FirstChar(value, pattern[i])
               == var t := FirstChar(value[j..], pattern[i]); if t.Some? then Some(t.value + j) else None
      {
        if value[j] == pattern[i] {
          len := j;
          break;
        }
        assert value[j..][1..] == value[j + 1..];
      }
    }
    FirstCharIn(value, pattern[i]);
    var found := len != |subject| - ofs;
    n := if found then Some(len) else None;
  }

  // ----- parsing and formatting undo each other

  ghost predicate Plain(pattern: string) {
    && '!' !in pattern
    && forall i | 0 <= i && i + 1 < |pattern| :: !(pattern[i] == '%' && pattern[i + 1] == '%')
  }

  ghost predicate EndsInHole(pattern: string) {
    pattern != "" && pattern[|pattern| - 1] == '%'
  }

  /** Formatting the pattern with what a place holder that is still open has taken,
      followed by the other captures. */
  ghost function Refill(pattern: string, caps: seq<string>, i: nat, open: bool): Option<string>
    requires i <= |pattern|
  {
    if !open then Fmt(pattern, caps, i)
    else if caps == [] then None
    else Prefixed(caps[0], Fmt(pattern, caps[1..], i))
  }

  lemma {:induction false} RunThenFormat(pattern: string, subject: string, i: nat, subj: nat, open: Option<nat>)
    requires Plain(pattern) && i <= |pattern| && subj <= |subject|
    requires open.Some? ==> open.value == subj && i > 0 && pattern[i - 1] == '%'
    requires Run(pattern, subject, i, subj, open).Some?
    ensures var t := Refill(pattern, Run(pattern, subject, i, subj, open).value, i, open.Some?);
            && t.Some? && t.value <= subject[subj..]
            && ((if i < |pattern| then EndsInHole(pattern) else open.Some?) ==> t.value == subject[subj..])
    decreases |pattern| - i, open.Some?
  {
    var caps := Run(pattern, subject, i, subj, open).value;
    if i == |pattern| {
    } else if pattern[i] == '%' {
      RunThenFormat(pattern, subject, i + 1, subj, Some(subj));
    } else if open.Some? {
      var n := CaptureLen(pattern, i, subject[subj..]).value;
      RunThenFormat(pattern, subject, i, subj + n, None);
      assert caps[1..] == Run(pattern, subject, i, subj + n, None).value;
      assert subject[subj..] == subject[subj..subj + n] + subject[subj + n..];
    } else {
      RunThenFormat(pattern, subject, i + 1, subj + 1, None);
      assert subject[subj..] == [subject[subj]] + subject[subj + 1..];
    }
  }

  /** Formatting the pattern with the captures gives a prefix of the subject, and
      the whole subject if the pattern ends in a place holder. */
  lemma ParseThenFormat(pattern: string, subject: string)
    requires Plain(pattern)
    requires Run(pattern, subject, 0, 0, None).Some?
    ensures var t := Fmt(pattern, Run(pattern, subject, 0, 0, None).value, 0);
            t.Some? && t.value <= subject && (EndsInHole(pattern) ==> t.value == subject)
  {
    RunThenFormat(pattern, subject, 0, 0, None);
    assert subject[0..] == subject;
  }

  /** Where the literal that begins at i ends: at the next place holder or with the pattern. */
  function LiteralEnd(pattern: string, i: nat): (e: nat)
    requires i <= |pattern|
    ensures i <= e <= |pattern| && '%' !in pattern[i..e] && (e < |pattern| ==> pattern[e] == '%')
    decreases |pattern| - i
  {
    if i == |pattern| || pattern[i] == '%' then i
    else
      var e := LiteralEnd(pattern, i + 1);
      assert pattern[i..e] == [pattern[i]] + pattern[i + 1..e];
      e
  }

  /** The literal between two place holders comes for the first time right behind the argument. */
  ghost predicate ComesFirst(literal: string, arg: string) {
    IsLeast(arg + literal, literal, Some(|arg|))
  }

  /** The literal that begins at i tells where the argument before it ends: its first character
      is not in the argument, or it is a literal that the search does not miss, stands before
      another place holder, and comes for the first time. */
  ghost predicate Separates(pattern: string, i: nat, arg: string)
    requires i < |pattern|
  {
    var e := LiteralEnd(pattern, i);
    || pattern[i] !in arg
    || (i < e < |pattern| && Searchable(pattern[i..e]) && ComesFirst(pattern[i..e], arg))
  }

  /** From i on, there is one argument for each place holder, which the literal behind it
      separates from what follows. Place holders side by side are one. */
  ghost predicate Delimited(pattern: string, args: seq<string>, i: nat)
    requires i <= |pattern|
    decreases |pattern| - i
  {
    if i == |pattern| then args == []
    else if pattern[i] == '%' && i + 1 < |pattern| && pattern[i + 1] == '%' then Delimited(pattern, args, i + 1)
    else if pattern[i] == '%' then
      && args != []
      && (i + 1 < |pattern| ==> Separates(pattern, i + 1, args[0]))
      && Delimited(pattern, args[1..], i + 1)
    else Delimited(pattern, args, i + 1)
  }

  /** Parsing a formatted text gives back the arguments. */
  lemma FormatThenParse(pattern: string, args: seq<string>)
    requires Plain(pattern) && Delimited(pattern, args, 0)
    ensures Fmt(pattern, args, 0).Some?
    ensures Run(pattern, Fmt(pattern, args, 0).value, 0, 0, None) == Some(args)
  {
    FormatThenRun(pattern, args, 0, "");
    var t := Fmt(pattern, args, 0).value;
    assert "" + t == t;
  }

  lemma {:induction false} FormatThenRun(pattern: string, args: seq<string>, i: nat, before: string)
    requires Plain(pattern) && i <= |pattern| && Delimited(pattern, args, i)
    ensures Fmt(pattern, args, i).Some?
    ensures Run(pattern, before + Fmt(pattern, args, i).value, i, |before|, None) == Some(args)
    decreases |pattern| - i
  {
    if i == |pattern| {
    } else if pattern[i] == '%' {
      FormatThenRun(pattern, args[1..], i + 1, before + args[0]);
      HoleRuns(pattern, args, i, before);
    } else {
      FormatThenRun(pattern, args, i + 1, before + [pattern[i]]);
      var tail := Fmt(pattern, args, i + 1).value;
      assert before + ([pattern[i]] + tail) == before + [pattern[i]] + tail;
    }
  }

  /** A place holder, in front of what is known to be read back. */
  lemma HoleRuns(pattern: string, args: seq<string>, i: nat, before: string)
    requires Plain(pattern) && i < |pattern| && pattern[i] == '%' && args != [] && Delimited(pattern, args, i)
    requires Fmt(pattern, args[1..], i + 1).Some?
    requires var tail := Fmt(pattern, args[1..], i + 1).value;
             Run(pattern, before + args[0] + tail, i + 1, |before + args[0]|, None) == Some(args[1..])
    ensures Fmt(pattern, args, i).Some?
    ensures Run(pattern, before + Fmt(pattern, args, i).value, i, |before|, None) == Some(args)
  {
    hide Separates, CaptureLen;
    var tail := Fmt(pattern, args[1..], i + 1).value;
    var subject := before + (args[0] + tail);
    assert subject == before + args[0] + tail;
    assert args == [args[0]] + args[1..];
    assert subject[|before|..] == args[0] + tail;
    if i + 1 < |pattern| {
      CaptureIsArgument(pattern, args[1..], i + 1, args[0]);
      assert subject[|before|..|before| + |args[0]|] == args[0];
    } else {
      assert tail == "" && args[1..] == [] && subject[|before|..] == args[0];
      assert Run(pattern, subject, i + 1, |before|, Some(|before|)) == Some([args[0]]);
      assert args == [args[0]];
    }
  }

  lemma CaptureIsArgument(pattern: string, args: seq<string>, i: nat, arg: string)
    requires Plain(pattern) && i < |pattern| && pattern[i] != '%' && Separates(pattern, i, arg)
    requires Fmt(pattern, args, i).Some?
    ensures CaptureLen(pattern, i, arg + Fmt(pattern, args, i).value) == Some(|arg|)
  {
    var tail := Fmt(pattern, args, i).value;
    NextHole(pattern, i);
    match FirstChar(pattern[i..], '%')
    case None =>
      assert tail[0] == pattern[i];
      FirstCharAfter(arg, tail, pattern[i]);
    case Some(n) =>
      LiteralIsPrinted(pattern, args, i, i + n);
      if pattern[i] !in arg {
        FindAfter(arg, tail, pattern[i..i + n]);
      } else {
        FindFirst(arg, tail, pattern[i..i + n]);
      }
  }

  lemma {:induction false} NextHole(pattern: string, i: nat)
    requires i <= |pattern|
    ensures var e := LiteralEnd(pattern, i);
            FirstChar(pattern[i..], '%') == if e < |pattern| then Some(e - i) else None
    decreases |pattern| - i
  {
    if i < |pattern| && pattern[i] != '%' {
      NextHole(pattern, i + 1);
      assert pattern[i..][1..] == pattern[i + 1..];
    }
  }

  /** A literal that comes first right behind a text is found there, whatever follows. */
  lemma FindFirst(pre: string, post: string, literal: string)
    requires literal != "" && Searchable(literal) && literal <= post && ComesFirst(literal, pre)
    ensures FindSpec(pre + post, literal) == Some(|pre|)
  {
    var whole, front := pre + post, pre + literal;
    ScanComplete(whole, literal, 0, 0);
    assert whole[..|front|] == front;
    forall p: nat | p <= |pre|
      ensures OccursAt(whole, literal, p) <==> OccursAt(front, literal, p)
    {
      OccursInFront(whole, literal, |front|, p);
    }
    assert OccursAt(front, literal, |pre|);
  }

  lemma {:induction false} FirstCharAfter(pre: string, post: string, c: char)
    requires c !in pre && post != "" && post[0] == c
    ensures FirstChar(pre + post, c) == Some(|pre|)
  {
    if pre == "" {
      assert pre + post == post;
    } else {
      assert (pre + post)[1..] == pre[1..] + post;
      FirstCharAfter(pre[1..], post, c);
    }
  }

  /** A literal stretch of the pattern is printed as it is. */
  lemma {:induction false} LiteralIsPrinted(pattern: string, args: seq<string>, i: nat, end: nat)
    requires Plain(pattern) && i <= end <= |pattern| && '%' !in pattern[i..end]
    requires Fmt(pattern, args, i).Some?
    ensures pattern[i..end] <= Fmt(pattern, args, i).value
    decreases end - i
  {
    if i < end {
      assert pattern[i] == pattern[i..end][0];
      assert pattern[i + 1..end] == pattern[i..end][1..];
      LiteralIsPrinted(pattern, args, i + 1, end);
    }
  }

  /** The last character of the needle. */
  lemma ScanEnds(s: string, needle: string, p: nat)
    requires needle != "" && p + |needle| <= |s| && s[p + (|needle| - 1)] == needle[|needle| - 1]
    requires Scan(s, needle, 0, 0) == Scan(s, needle, p + (|needle| - 1), |needle| - 1)
    ensures FindSpec(s, needle) == Some(p)
  {
  }

  /** A needle is found behind a text that does not contain its first character. */
  lemma FindAfter(pre: string, post: string, needle: string)
    requires needle != "" && needle <= post && needle[0] !in pre
    ensures FindSpec(pre + post, needle) == Some(|pre|)
  {
    hide FindSpec, Scan;
    var s := pre + post;
    assert s[0..|pre|] == pre;
    SkipTo(s, needle, 0, |pre|);
    forall x {:trigger needle[x]} | 0 <= x < |needle|
      ensures s[|pre| + x] == needle[x]
    {
      assert s[|pre| + x] == post[x];
    }
    ScanThrough(s, needle, |pre|, 0, |needle| - 1);
    ScanEnds(s, needle, |pre|);
  }

  lemma {:induction false} SkipTo(s: string, needle: string, i: nat, end: nat)
    requires needle != "" && i <= end <= |s| && needle[0] !in s[i..end]
    ensures Scan(s, needle, i, 0) == Scan(s, needle, end, 0)
    decreases end - i
  {
    if i < end {
      assert s[i] == s[i..end][0] && s[i + 1..end] == s[i..end][1..];
      SkipTo(s, needle, i + 1, end);
    }
  }

  // ----- what parsing is, for the patterns whose literals are all searched for without fail

  /** Every literal between two place holders is one that the search does not miss. */
  ghost predicate SearchableLiterals(pattern: string) {
    forall i {:trigger LiteralEnd(pattern, i)} | 0 < i < |pattern| && pattern[i - 1] == '%' && pattern[i] != '%' ::
      var e := LiteralEnd(pattern, i); e < |pattern| ==> Searchable(pattern[i..e])
  }

  /** The pattern from i on with the captures in their places. */
  ghost function Filled(pattern: string, caps: seq<string>, i: nat): Option<string>
    requires i <= |pattern|
    decreases |pattern| - i
  {
    if i == |pattern| then Some("")
    else if pattern[i] != '%' then Prefixed([pattern[i]], Filled(pattern, caps, i + 1))
    else if i + 1 < |pattern| && pattern[i + 1] == '%' then Filled(pattern, caps, i + 1)
    else if caps == [] then None
    else Prefixed(caps[0], Filled(pattern, caps[1..], i + 1))
  }

  /** This is formatting, but for escapes and for place holders side by side. */
  lemma {:induction false} FilledIsFormat(pattern: string, caps: seq<string>, i: nat)
    requires Plain(pattern) && i <= |pattern|
    ensures Filled(pattern, caps, i) == Fmt(pattern, caps, i)
    decreases |pattern| - i
  {
    if i < |pattern| {
      if pattern[i] != '%' {
        FilledIsFormat(pattern, caps, i + 1);
      } else if caps != [] {
        FilledIsFormat(pattern, caps[1..], i + 1);
      }
    }
  }

  /** The pattern from i on with the captures is the start of a text, and all of it if the
      pattern ends in a place holder. */
  ghost predicate Fits(pattern: string, caps: seq<string>, i: nat, text: string)
    requires i <= |pattern|
  {
    var t := Filled(pattern, caps, i);
    t.Some? && t.value <= text && (i < |pattern| && EndsInHole(pattern) ==> t.value == text)
  }

  lemma CaptureExact(pattern: string, i: nat, value: string, n: nat)
    requires i < |pattern| && pattern[i] != '%'
    requires var e := LiteralEnd(pattern, i); e < |pattern| ==> Searchable(pattern[i..e])
    ensures var e := LiteralEnd(pattern, i);
            CaptureLen(pattern, i, value) == Some(n) <==>
            && n < |value| && Separates(pattern, i, value[..n])
            && (if e < |pattern| then pattern[i..e] <= value[n..] else value[n] == pattern[i])
  {
    hide *;
    CaptureIs(pattern, i, value);
    SeparatesIs(pattern, i, value[..if n < |value| then n else 0]);
    var e := LiteralEnd(pattern, i);
    if e < |pattern| {
      FoundExact(value, pattern[i..e], n);
    } else {
      CharExact(value, pattern[i], n);
    }
  }

  lemma CaptureIs(pattern: string, i: nat, value: string)
    requires i < |pattern| && pattern[i] != '%'
    ensures var e := LiteralEnd(pattern, i);
            && i < e <= |pattern| && pattern[i..e][0] == pattern[i]
            && CaptureLen(pattern, i, value) ==
               if e < |pattern| then FindSpec(value, pattern[i..e]) else FirstChar(value, pattern[i])
  {
    NextHole(pattern, i);
    hide FindSpec, FirstChar;
  }

  lemma SeparatesIs(pattern: string, i: nat, arg: string)
    requires i < |pattern|
    ensures var e := LiteralEnd(pattern, i);
            Separates(pattern, i, arg) <==>
            pattern[i] !in arg || (i < e < |pattern| && Searchable(pattern[i..e]) && ComesFirst(pattern[i..e], arg))
  {
    hide LiteralEnd, ComesFirst, Searchable;
  }

  lemma CharExact(value: string, c: char, n: nat)
    ensures FirstChar(value, c) == Some(n) <==> n < |value| && c !in value[..n] && value[n] == c
  {
    FirstCharIn(value, c);
    if n < |value| && c !in value[..n] && value[n] == c {
      assert value == value[..n] + value[n..];
      FirstCharAfter(value[..n], value[n..], c);
    }
  }

  /** Where a literal is found. */
  lemma FoundExact(value: string, literal: string, n: nat)
    requires literal != "" && Searchable(literal)
    ensures FindSpec(value, literal) == Some(n) <==>
            && n < |value| && (literal[0] !in value[..n] || ComesFirst(literal, value[..n])) && literal <= value[n..]
  {
    if FindSpec(value, literal) == Some(n) {
      ScanComplete(value, literal, 0, 0);
      FirstInFront(value, literal, n);
    }
    if n < |value| && literal <= value[n..] {
      assert value == value[..n] + value[n..];
      if literal[0] !in value[..n] {
        FindAfter(value[..n], value[n..], literal);
      } else if ComesFirst(literal, value[..n]) {
        FindFirst(value[..n], value[n..], literal);
      }
    }
  }

  lemma FirstInFront(value: string, literal: string, n: nat)
    requires literal != "" && IsLeast(value, literal, Some(n))
    ensures n < |value| && literal <= value[n..] && ComesFirst(literal, value[..n])
  {
    var front := value[..n] + literal;
    assert value[n..][..|literal|] == literal;
    assert front == value[..n + |literal|];
    assert front[n..n + |literal|] == literal;
    forall p: nat | p < n
      ensures OccursAt(front, literal, p) == OccursAt(value, literal, p)
    {
      OccursInFront(value, literal, n + |literal|, p);
    }
  }

  lemma OccursInFront(value: string, literal: string, m: nat, p: nat)
    requires m <= |value| && p + |literal| <= m
    ensures OccursAt(value[..m], literal, p) == OccursAt(value, literal, p)
  {
    assert value[..m][p..p + |literal|] == value[p..p + |literal|];
  }

  lemma FitsEnd(pattern: string, caps: seq<string>, text: string)
    ensures Fits(pattern, caps, |pattern|, text) && (Delimited(pattern, caps, |pattern|) <==> caps == [])
  {
  }

  lemma FitsChar(pattern: string, caps: seq<string>, i: nat, text: string)
    requires i < |pattern| && pattern[i] != '%'
    ensures Fits(pattern, caps, i, text) <==>
            text != "" && text[0] == pattern[i] && Fits(pattern, caps, i + 1, text[1..])
  {
    var t := Filled(pattern, caps, i + 1);
    if t.Some? && text != "" && text[0] == pattern[i] {
      assert text == [pattern[i]] + text[1..];
      assert [pattern[i]] + t.value <= text <==> t.value <= text[1..] by {
        PrefixBehind([pattern[i]], t.value, text[1..]);
      }
    }
  }

  lemma PrefixBehind(a: string, t: string, u: string)
    ensures a + t <= a + u <==> t <= u
    ensures a + t == a + u <==> t == u
  {
    assert (a + t)[|a|..] == t && (a + u)[|a|..] == u;
    if a + t <= a + u {
      assert forall k | 0 <= k < |t| :: t[k] == (a + t)[|a| + k] == (a + u)[|a| + k] == u[k];
    }
  }

  lemma FrontOfPrefix(a: string, t: string, text: string)
    ensures a + t <= text ==> a <= text
  {
  }

  lemma FitsHole(pattern: string, caps: seq<string>, i: nat, text: string)
    requires i + 1 < |pattern| && pattern[i] == '%' && pattern[i + 1] != '%'
    ensures Fits(pattern, caps, i, text) <==>
            caps != [] && caps[0] <= text && Fits(pattern, caps[1..], i + 1, text[|caps[0]|..])
  {
    if caps != [] && Filled(pattern, caps[1..], i + 1).Some? {
      var t := Filled(pattern, caps[1..], i + 1).value;
      hide Filled;
      if caps[0] <= text {
        assert text == caps[0] + text[|caps[0]|..];
        PrefixBehind(caps[0], t, text[|caps[0]|..]);
      } else {
        FrontOfPrefix(caps[0], t, text);
      }
    }
  }

  /** The literal at i is what a text that fits begins with. */
  lemma FitsLiteral(pattern: string, caps: seq<string>, i: nat, text: string)
    requires i < |pattern| && pattern[i] != '%' && Fits(pattern, caps, i, text)
    ensures var e := LiteralEnd(pattern, i); pattern[i..e] <= text && text != "" && text[0] == pattern[i]
  {
    LiteralIsFilled(pattern, caps, i);
  }

  lemma {:induction false} LiteralIsFilled(pattern: string, caps: seq<string>, i: nat)
    requires i <= |pattern| && Filled(pattern, caps, i).Some?
    ensures pattern[i..LiteralEnd(pattern, i)] <= Filled(pattern, caps, i).value
    decreases |pattern| - i
  {
    if i < |pattern| && pattern[i] != '%' {
      LiteralIsFilled(pattern, caps, i + 1);
      var e := LiteralEnd(pattern, i + 1);
      assert pattern[i..e] == [pattern[i]] + pattern[i + 1..e];
    }
  }

  lemma {:induction false} RunExact(pattern: string, subject: string, i: nat, subj: nat, caps: seq<string>)
    requires SearchableLiterals(pattern) && i <= |pattern| && subj <= |subject|
    ensures Run(pattern, subject, i, subj, None) == Some(caps) <==>
            Delimited(pattern, caps, i) && Fits(pattern, caps, i, subject[subj..])
    decreases |pattern| - i
  {
    var text := subject[subj..];
    if i == |pattern| {
      FitsEnd(pattern, caps, text);
    } else if pattern[i] != '%' {
      FitsChar(pattern, caps, i, text);
      if text != "" && text[0] == pattern[i] {
        assert text[1..] == subject[subj + 1..];
        RunExact(pattern, subject, i + 1, subj + 1, caps);
      }
    } else if i + 1 == |pattern| {
      LastHole(pattern, caps, i, text);
    } else if pattern[i + 1] == '%' {
      RunExact(pattern, subject, i + 1, subj, caps);
    } else {
      HoleExact(pattern, subject, i, subj, caps);
    }
  }

  lemma LastHole(pattern: string, caps: seq<string>, i: nat, text: string)
    requires i + 1 == |pattern| && pattern[i] == '%'
    ensures Delimited(pattern, caps, i) && Fits(pattern, caps, i, text) <==> caps == [text]
  {
    assert EndsInHole(pattern);
    if caps == [] {
      assert !Delimited(pattern, caps, i);
    } else {
      LastFilled(pattern, caps, i);
      assert caps == [caps[0]] + caps[1..];
      assert Delimited(pattern, caps, i) <==> caps[1..] == [];
      hide Filled, Delimited;
      assert Fits(pattern, caps, i, text) <==> caps[0] == text;
    }
  }

  lemma LastFilled(pattern: string, caps: seq<string>, i: nat)
    requires i + 1 == |pattern| && pattern[i] == '%' && caps != []
    ensures Filled(pattern, caps, i) == Some(caps[0])
  {
    assert Filled(pattern, caps[1..], i + 1) == Some("");
    assert caps[0] + "" == caps[0];
  }

  lemma {:induction false} HoleExact(pattern: string, subject: string, i: nat, subj: nat, caps: seq<string>)
    requires SearchableLiterals(pattern) && i + 1 < |pattern| && subj <= |subject|
    requires pattern[i] == '%' && pattern[i + 1] != '%'
    ensures Run(pattern, subject, i, subj, None) == Some(caps) <==>
            Delimited(pattern, caps, i) && Fits(pattern, caps, i, subject[subj..])
    decreases |pattern| - i, 0
  {
    hide *;
    var text := subject[subj..];
    var c := CaptureLen(pattern, i + 1, text);
    FitsHole(pattern, caps, i, text);
    RunHole(pattern, subject, i, subj);
    DelimitedHole(pattern, caps, i);
    if c.Some? {
      CaptureSeparates(pattern, i + 1, text, c.value);
      var rest := Run(pattern, subject, i + 1, subj + c.value, None);
      CapturedIs(text[..c.value], rest, caps);
      assert subject[subj + c.value..] == text[c.value..];
      if caps != [] {
        RunExact(pattern, subject, i + 1, subj + c.value, caps[1..]);
      }
    }
    if caps != [] && caps[0] <= text && Fits(pattern, caps[1..], i + 1, text[|caps[0]|..]) {
      CaptureIsCap(pattern, caps, i + 1, text);
    }
  }

  lemma CaptureSeparates(pattern: string, i: nat, text: string, n: nat)
    requires SearchableLiterals(pattern) && 0 < i < |pattern| && pattern[i - 1] == '%' && pattern[i] != '%'
    requires CaptureLen(pattern, i, text) == Some(n)
    ensures n <= |text| && Separates(pattern, i, text[..n])
  {
    hide LiteralEnd, CaptureLen, Searchable, Separates;
    CaptureExact(pattern, i, text, n);
  }

  /** Where the captures fit, the capture is the one that is separated. */
  lemma CaptureIsCap(pattern: string, caps: seq<string>, i: nat, text: string)
    requires SearchableLiterals(pattern) && 0 < i < |pattern| && pattern[i - 1] == '%' && pattern[i] != '%'
    requires caps != [] && caps[0] <= text && Fits(pattern, caps[1..], i, text[|caps[0]|..])
    ensures CaptureLen(pattern, i, text) == Some(|caps[0]|) <==> Separates(pattern, i, caps[0])
  {
    hide LiteralEnd, CaptureLen, Searchable, Separates, Fits;
    CaptureExact(pattern, i, text, |caps[0]|);
    assert text[..|caps[0]|] == caps[0];
    FitsLiteral(pattern, caps[1..], i, text[|caps[0]|..]);
  }

  lemma CapturedIs(s: string, rest: Option<seq<string>>, caps: seq<string>)
    ensures Captured(s, rest) == Some(caps) <==> caps != [] && caps[0] == s && rest == Some(caps[1..])
  {
    if rest.Some? {
      assert ([s] + rest.value)[1..] == rest.value;
    }
    if caps != [] {
      assert caps == [caps[0]] + caps[1..];
    }
  }

  lemma DelimitedHole(pattern: string, caps: seq<string>, i: nat)
    requires i + 1 < |pattern| && pattern[i] == '%' && pattern[i + 1] != '%'
    ensures Delimited(pattern, caps, i) <==>
            caps != [] && Separates(pattern, i + 1, caps[0]) && Delimited(pattern, caps[1..], i + 1)
  {
    hide Separates;
  }

  lemma RunHole(pattern: string, subject: string, i: nat, subj: nat)
    requires i + 1 < |pattern| && pattern[i] == '%' && pattern[i + 1] != '%' && subj <= |subject|
    ensures var text := subject[subj..];
            Run(pattern, subject, i, subj, None) ==
            match CaptureLen(pattern, i + 1, text)
            case None => None
            case Some(n) =>
              if n <= |text| then Captured(text[..n], Run(pattern, subject, i + 1, subj + n, None)) else None
  {
    hide CaptureLen;
    match CaptureLen(pattern, i + 1, subject[subj..])
    case None =>
    case Some(n) =>
      if subj + n <= |subject| {
        assert subject[subj..subj + n] == subject[subj..][..n];
      }
  }

  /** Parsing gives exactly those captures which the literals separate and with which the
      pattern reads as the subject, or as the start of it if no place holder comes last. */
  lemma ParseIsExact(pattern: string, subject: string, caps: seq<string>)
    requires SearchableLiterals(pattern)
    ensures Run(pattern, subject, 0, 0, None) == Some(caps) <==>
            Delimited(pattern, caps, 0) && Fits(pattern, caps, 0, subject)
  {
    RunExact(pattern, subject, 0, 0, caps);
    assert subject[0..] == subject;
  }

  lemma DoubleSpace()
    ensures Searchable("  ") && ComesFirst("  ", " Hello")
  {
    var text := " Hello" + "  ";
    assert Recurrence("  ", 1) == 1 && HasPeriod("  ", 1);
    assert text[6..8] == "  ";
    forall p: nat | p < 6
      ensures !OccursAt(text, "  ", p)
    {
      assert text[p..p + 2][0] == text[p] && text[p..p + 2][1] == text[p + 1];
      assert text[p] != ' ' || text[p + 1] != ' ';
    }
  }

  lemma HelloParts()
    ensures var ts := ["", "  ", ""];
            && Open("") && Open("  ") && Template(ts) == "%  %" && Rest("%  %", 0, "%  %")
            && Woven(ts, [" Hello", "World."]) == " Hello  World."
  {
    var ts, args := ["", "  ", ""], [" Hello", "World."];
    assert ts[1..] == ["  ", ""] && ts[1..][1..] == [""];
    assert Template([""]) == "" && Woven([""], []) == "";
    assert Template(["  ", ""]) == "  %" by {
      assert Escaped("  ") == "  ";
      assert ["  ", ""][1..] == [""];
    }
    assert args[1..] == ["World."] && args[1..][1..] == [];
    assert Woven(["  ", ""], ["World."]) == "  World." by {
      assert ["  ", ""][1..] == [""] && ["World."][1..] == [];
    }
  }

  lemma HelloFormats()
    ensures Fmt("%  %", [" Hello", "World."], 0) == Some(" Hello  World.")
  {
    hide *;
    HelloParts();
    TemplateFormats("%  %", 0, ["", "  ", ""], [" Hello", "World."]);
  }

  /** A literal of two spaces, of which the first capture begins with one. */
  lemma ParseHere()
    ensures Run("%  %", " Hello  World.", 0, 0, None) == Some([" Hello", "World."])
  {
    var pattern, args := "%  %", [" Hello", "World."];
    DoubleSpace();
    HelloFormats();
    assert LiteralEnd(pattern, 1) == 3 && pattern[1..3] == "  ";
    assert args[1..] == ["World."] && args[1..][1..] == [];
    assert Plain(pattern) && Delimited(pattern, args, 0);
    hide *;
    FormatThenParse(pattern, args);
  }
}
