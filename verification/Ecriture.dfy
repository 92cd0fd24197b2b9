/** src/Ecriture: the parser of the markup language and the builder that prints it. */
module Ecriture {
  import opened Slices
  import opened StringReader
  import Chars

  datatype Kind = Value | TagStart | TagEnd | Option | AttrName | AttrValue | Literal | Comment | Done

  datatype Token = Token(kind: Kind, value: string)

  /** What the parser hands to its callback. */
  datatype Event = Event(token: Token, line: nat)

  /** The events of a stretch of input, and where the cursor is behind it. */
  datatype Out = Out(events: seq<Event>, next: nat)

  // ----- what each parser method reads, as a function of the position it starts at

  /** The first closing character at or behind j, in a stretch that starts at start. A
      closing character behind a backtick does not close. */
  function Close(s: string, start: nat, j: nat, equals: bool): (r: nat)
    requires start <= j <= |s|
    ensures j <= r <= |s|
    ensures r < |s| ==> s[r] == ']' || (equals && s[r] == '=')
    decreases |s| - j
  {
    if j == |s| then j
    else if (s[j] == ']' || (equals && s[j] == '=')) && (j == start || s[j - 1] != '`') then j
    else Close(s, start, j + 1, equals)
  }

  function AttrValueOut(s: string, i: nat): (r: Out)
    requires i <= |s|
    ensures i <= r.next <= |s|
  {
    var j := Close(s, i, i, false);
    if j == |s| then Out([], j)
    else Out([Event(Token(AttrValue, s[i..j]), LineAt(s, i))], j + 1)
  }

  function OptionOut(s: string, i: nat): (r: Out)
    requires i <= |s|
    ensures i <= r.next <= |s|
  {
    var j := Close(s, i, i, true);
    if j == |s| then Out([], j)
    else if s[j] == ']' then Out([Event(Token(Option, s[i..j]), LineAt(s, i))], j + 1)
    else
      var a := AttrValueOut(s, j + 1);
      Out([Event(Token(AttrName, s[i..j]), LineAt(s, i))] + a.events, a.next)
  }

  function CommentEnd(s: string, j: nat): (r: nat)
    requires j <= |s|
    ensures j <= r <= |s| && (r < |s| ==> r + 1 < |s| && s[r] == '*' && s[r + 1] == '/')
    decreases |s| - j
  {
    if j == |s| || (s[j] == '*' && j + 1 < |s| && s[j + 1] == '/') then j else CommentEnd(s, j + 1)
  }

  function CommentOut(s: string, i: nat): (r: Out)
    requires i <= |s|
    ensures i <= r.next <= |s|
  {
    var j := CommentEnd(s, i);
    if j == |s| then Out([], j)
    else Out([Event(Token(Comment, s[i..j]), LineAt(s, i))], j + 2)
  }

  function LiteralEnd(s: string, j: nat): (r: nat)
    requires j <= |s|
    ensures j <= r <= |s| && (r < |s| ==> s[r] == '`')
    decreases |s| - j
  {
    if j == |s| then j
    else if s[j] == '`' && j + 1 < |s| && s[j + 1] == '`' then LiteralEnd(s, j + 2)
    else if s[j] == '`' then j
    else LiteralEnd(s, j + 1)
  }

  function LiteralOut(s: string, i: nat): (r: Out)
    requires i <= |s|
    ensures i <= r.next <= |s|
  {
    var j := LiteralEnd(s, i);
    if j == |s| then Out([], j)
    else Out([Event(Token(Literal, s[i..j]), LineAt(s, i))], j + 1)
  }

  predicate InName(c: char) {
    Chars.IsSpace(c) || Chars.IsAlpha(c) || Chars.IsDigit(c)
  }

  /** From j on there are only name characters up to an opening bracket or brace. */
  predicate IsTagAt(s: string, j: nat)
    requires j <= |s|
    decreases |s| - j
  {
    j < |s| && (s[j] == '{' || s[j] == '[' || (InName(s[j]) && IsTagAt(s, j + 1)))
  }

  /** The Value token for the text from v to j, unless it is empty. */
  function Flush(s: string, v: nat, j: nat, line: nat): seq<Event>
    requires v <= j <= |s|
  {
    if v == j then [] else [Event(Token(Value, s[v..j]), line)]
  }

  /** A tag from its name on. */
  function FreshTag(s: string, i: nat): (r: Out)
    requires i <= |s|
    ensures i <= r.next <= |s|
    decreases |s| - i, 2
  {
    TagOut(s, i, Slice(0, 0), LineAt(s, i))
  }

  /** Parse, with the text from v to j read but not yet handed out. */
  function BodyOut(s: string, v: nat, j: nat, inTag: bool, line: nat): (r: Out)
    requires v <= j <= |s|
    ensures j <= r.next <= |s|
    decreases |s| - j, 3
  {
    if j == |s| then
      Out(Flush(s, v, j, line), j)
    else if s[j] == '`' then
      var l := LiteralOut(s, j + 1);
      var r := BodyOut(s, l.next, l.next, inTag, line);
      Out(Flush(s, v, j, line) + l.events + r.events, r.next)
    else if s[j] == '.' && IsTagAt(s, j + 1) then
      var t := FreshTag(s, j + 1);
      var r := BodyOut(s, t.next, t.next, inTag, line);
      Out(Flush(s, v, j, line) + t.events + r.events, r.next)
    else if s[j] == '/' && j + 1 < |s| && s[j + 1] == '*' then
      var c := CommentOut(s, j + 2);
      var r := BodyOut(s, c.next, c.next, inTag, line);
      Out(Flush(s, v, j, line) + c.events + r.events, r.next)
    else if inTag && s[j] == '}' then
      Out(Flush(s, v, j, line), j + 1)
    else
      BodyOut(s, v, j + 1, inTag, line)
  }

  function NameEvent(s: string, name: Slice, line: nat): seq<Event>
    requires Before(name, |s|)
  {
    var n := Chars.Trim(Text(s, name));
    if n == "" then [] else [Event(Token(TagStart, n), line)]
  }

  /** ParseTag, with the slice name collected so far. A name that is all white space is not
      handed out and, other than one that is, not dropped either. */
  function TagOut(s: string, j: nat, name: Slice, line: nat): (r: Out)
    requires j <= |s| && Before(name, j)
    ensures j <= r.next <= |s|
    decreases |s| - j, 1
  {
    if j == |s| then
      Out([], j)
    else if s[j] == '[' then
      var e := NameEvent(s, name, line);
      var o := OptionOut(s, j + 1);
      var r := TagOut(s, o.next, if e == [] then name else Slice(0, 0), line);
      Out(e + o.events + r.events, r.next)
    else if s[j] == '{' then
      var b := BodyOut(s, j + 1, j + 1, true, LineAt(s, j + 1));
      Out(NameEvent(s, name, line) + b.events + [Event(Token(TagEnd, ""), line)], b.next)
    else
      TagOut(s, j + 1, Grown(name, j), line)
  }

  /** The events of a whole document. */
  function Parsed(s: string): seq<Event> {
    var b := BodyOut(s, 0, 0, false, 1);
    b.events + [Event(Token(Done, ""), LineAt(s, b.next))]
  }

  // ----- one step of each

  lemma CloseStep(s: string, start: nat, j: nat, equals: bool)
    requires start <= j < |s|
    ensures Close(s, start, |s|, equals) == |s|
    ensures var closes := (s[j] == ']' || (equals && s[j] == '=')) && (j == start || s[j - 1] != '`');
            Close(s, start, j, equals) == if closes then j else Close(s, start, j + 1, equals)
  {
  }

  /** What an option is, in terms of where it closes. */
  lemma OptionAt(s: string, i: nat, j: nat)
    requires i <= j <= |s| && Close(s, i, i, true) == j
    ensures j == |s| ==> OptionOut(s, i) == Out([], j)
    ensures j < |s| && s[j] == ']' ==> OptionOut(s, i) == Out([Event(Token(Option, s[i..j]), LineAt(s, i))], j + 1)
    ensures j < |s| && s[j] == '=' ==>
              var a := AttrValueOut(s, j + 1);
              OptionOut(s, i) == Out([Event(Token(AttrName, s[i..j]), LineAt(s, i))] + a.events, a.next)
  {
    hide Close, LineAt, AttrValueOut;
  }

  lemma CloseAtEnd(s: string, start: nat, equals: bool)
    requires start <= |s|
    ensures Close(s, start, |s|, equals) == |s|
  {
  }

  lemma CommentAt(s: string, i: nat, j: nat)
    requires i <= j <= |s| && CommentEnd(s, i) == j
    ensures CommentOut(s, i) == if j == |s| then Out([], j)
            else Out([Event(Token(Comment, s[i..j]), LineAt(s, i))], j + 2)
  {
    hide CommentEnd, LineAt;
  }

  lemma CommentAtEnd(s: string)
    ensures CommentEnd(s, |s|) == |s|
  {
  }

  lemma LiteralAt(s: string, i: nat, j: nat)
    requires i <= j <= |s| && LiteralEnd(s, i) == j
    ensures LiteralOut(s, i) == if j == |s| then Out([], j)
            else Out([Event(Token(Literal, s[i..j]), LineAt(s, i))], j + 1)
  {
    hide LiteralEnd, LineAt;
  }

  lemma LiteralAtEnd(s: string)
    ensures LiteralEnd(s, |s|) == |s|
  {
  }

  lemma CommentStep(s: string, j: nat)
    requires j < |s|
    ensures CommentEnd(s, |s|) == |s|
    ensures CommentEnd(s, j) == if s[j] == '*' && j + 1 < |s| && s[j + 1] == '/' then j else CommentEnd(s, j + 1)
  {
  }

  lemma LiteralStep(s: string, j: nat)
    requires j < |s|
    ensures LiteralEnd(s, |s|) == |s|
    ensures var twice := s[j] == '`' && j + 1 < |s| && s[j + 1] == '`';
            LiteralEnd(s, j) == if twice then LiteralEnd(s, j + 2) else if s[j] == '`' then j else LiteralEnd(s, j + 1)
  {
  }

  lemma BodyAtEnd(s: string, v: nat, inTag: bool, line: nat)
    requires v <= |s|
    ensures BodyOut(s, v, |s|, inTag, line) == Out(Flush(s, v, |s|, line), |s|)
  {
  }

  lemma BodyAtLiteral(s: string, v: nat, j: nat, inTag: bool, line: nat)
    requires v <= j < |s| && s[j] == '`'
    ensures var l := LiteralOut(s, j + 1); var t := BodyOut(s, l.next, l.next, inTag, line);
            BodyOut(s, v, j, inTag, line) == Out(Flush(s, v, j, line) + l.events + t.events, t.next)
  {
  }

  lemma BodyAtTag(s: string, v: nat, j: nat, inTag: bool, line: nat)
    requires v <= j < |s| && s[j] == '.' && IsTagAt(s, j + 1)
    ensures var g := FreshTag(s, j + 1); var t := BodyOut(s, g.next, g.next, inTag, line);
            BodyOut(s, v, j, inTag, line) == Out(Flush(s, v, j, line) + g.events + t.events, t.next)
  {
  }

  lemma BodyAtComment(s: string, v: nat, j: nat, inTag: bool, line: nat)
    requires v <= j && j + 1 < |s| && s[j] == '/' && s[j + 1] == '*'
    ensures var c := CommentOut(s, j + 2); var t := BodyOut(s, c.next, c.next, inTag, line);
            BodyOut(s, v, j, inTag, line) == Out(Flush(s, v, j, line) + c.events + t.events, t.next)
  {
  }

  lemma BodyAtBrace(s: string, v: nat, j: nat, line: nat)
    requires v <= j < |s| && s[j] == '}'
    ensures BodyOut(s, v, j, true, line) == Out(Flush(s, v, j, line), j + 1)
  {
  }

  lemma BodyElsewhere(s: string, v: nat, j: nat, inTag: bool, line: nat)
    requires v <= j < |s| && s[j] != '`' && !(s[j] == '.' && IsTagAt(s, j + 1)) && !(inTag && s[j] == '}')
    requires !(s[j] == '/' && j + 1 < |s| && s[j + 1] == '*')
    ensures BodyOut(s, v, j, inTag, line) == BodyOut(s, v, j + 1, inTag, line)
  {
  }

  lemma TagStep(s: string, j: nat, name: Slice, line: nat)
    requires j <= |s| && Before(name, j)
    ensures j == |s| ==> TagOut(s, j, name, line) == Out([], j)
    ensures j < |s| ==>
            var r, e := TagOut(s, j, name, line), NameEvent(s, name, line);
            && (s[j] == '[' ==> var o := OptionOut(s, j + 1);
                                var t := TagOut(s, o.next, if e == [] then name else Slice(0, 0), line);
                                r == Out(e + o.events + t.events, t.next))
            && (s[j] == '{' ==> var b := BodyOut(s, j + 1, j + 1, true, LineAt(s, j + 1));
                                r == Out(e + b.events + [Event(Token(TagEnd, ""), line)], b.next))
            && (s[j] != '[' && s[j] != '{' ==> r == TagOut(s, j + 1, Grown(name, j), line))
  {
  }

  lemma FlushSame(s: string, value: Slice, v: nat, j: nat, line: nat)
    requires Covers(s, value, v, j)
    ensures v <= j <= |s| && Before(value, |s|)
    ensures Flush(s, value.start, value.start + value.len, line) == Flush(s, v, j, line)
  {
  }

  /** With the events now handed out, rest is what is missing from all. */
  ghost predicate Ahead(start: seq<Event>, all: Out, now: seq<Event>, rest: Out) {
    all.next == rest.next && start + all.events == now + rest.events
  }

  lemma AheadStart(start: seq<Event>, all: Out)
    ensures Ahead(start, all, start, all)
  {
  }

  lemma AheadStep(start: seq<Event>, all: Out, now: seq<Event>, a: seq<Event>, b: seq<Event>, rest: Out)
    requires Ahead(start, all, now, Out(a + b + rest.events, rest.next))
    ensures Ahead(start, all, now + a + b, rest)
  {
    assert now + a + b + rest.events == now + (a + b + rest.events);
  }

  lemma AheadDone(start: seq<Event>, all: Out, now: seq<Event>, a: seq<Event>, next: nat)
    requires Ahead(start, all, now, Out(a, next))
    ensures now + a == start + all.events && next == all.next
  {
  }

  /** Parse is at j, the text from v on is not handed out yet, and the rest of the input
      gives what is missing from all. */
  ghost predicate Reading(start: seq<Event>, all: Out, now: seq<Event>, s: string, v: nat, j: nat, inTag: bool,
                          line: nat) {
    v <= j <= |s| && Ahead(start, all, now, BodyOut(s, v, j, inTag, line))
  }

  lemma ReadStart(start: seq<Event>, s: string, i: nat, inTag: bool, line: nat)
    requires i <= |s|
    ensures Reading(start, BodyOut(s, i, i, inTag, line), start, s, i, i, inTag, line)
  {
  }

  lemma ReadLiteral(start: seq<Event>, all: Out, now: seq<Event>, s: string, v: nat, j: nat, inTag: bool, line: nat)
    requires Reading(start, all, now, s, v, j, inTag, line) && j < |s| && s[j] == '`'
    ensures var l := LiteralOut(s, j + 1);
            Reading(start, all, now + Flush(s, v, j, line) + l.events, s, l.next, l.next, inTag, line)
  {
    BodyAtLiteral(s, v, j, inTag, line);
    hide BodyOut, Ahead;
    var l := LiteralOut(s, j + 1);
    AheadStep(start, all, now, Flush(s, v, j, line), l.events, BodyOut(s, l.next, l.next, inTag, line));
  }

  lemma ReadTag(start: seq<Event>, all: Out, now: seq<Event>, s: string, v: nat, j: nat, inTag: bool, line: nat)
    requires Reading(start, all, now, s, v, j, inTag, line) && j < |s| && s[j] == '.' && IsTagAt(s, j + 1)
    ensures var t := FreshTag(s, j + 1);
            Reading(start, all, now + Flush(s, v, j, line) + t.events, s, t.next, t.next, inTag, line)
  {
    BodyAtTag(s, v, j, inTag, line);
    hide BodyOut, Ahead;
    var t := FreshTag(s, j + 1);
    AheadStep(start, all, now, Flush(s, v, j, line), t.events, BodyOut(s, t.next, t.next, inTag, line));
  }

  lemma ReadComment(start: seq<Event>, all: Out, now: seq<Event>, s: string, v: nat, j: nat, inTag: bool, line: nat)
    requires Reading(start, all, now, s, v, j, inTag, line) && j + 1 < |s| && s[j] == '/' && s[j + 1] == '*'
    ensures var c := CommentOut(s, j + 2);
            Reading(start, all, now + Flush(s, v, j, line) + c.events, s, c.next, c.next, inTag, line)
  {
    BodyAtComment(s, v, j, inTag, line);
    hide BodyOut, Ahead;
    var c := CommentOut(s, j + 2);
    AheadStep(start, all, now, Flush(s, v, j, line), c.events, BodyOut(s, c.next, c.next, inTag, line));
  }

  lemma ReadOther(start: seq<Event>, all: Out, now: seq<Event>, s: string, v: nat, j: nat, inTag: bool, line: nat)
    requires Reading(start, all, now, s, v, j, inTag, line)
    requires j < |s| && s[j] != '`' && !(s[j] == '.' && IsTagAt(s, j + 1)) && !(inTag && s[j] == '}')
    requires !(s[j] == '/' && j + 1 < |s| && s[j + 1] == '*')
    ensures Reading(start, all, now, s, v, j + 1, inTag, line)
  {
    BodyElsewhere(s, v, j, inTag, line);
  }

  lemma ReadBrace(start: seq<Event>, all: Out, now: seq<Event>, s: string, v: nat, j: nat, line: nat)
    requires Reading(start, all, now, s, v, j, true, line) && j < |s| && s[j] == '}'
    ensures now + Flush(s, v, j, line) == start + all.events && j + 1 == all.next
  {
    BodyAtBrace(s, v, j, line);
  }

  lemma ReadEnd(start: seq<Event>, all: Out, now: seq<Event>, s: string, v: nat, inTag: bool, line: nat)
    requires Reading(start, all, now, s, v, |s|, inTag, line)
    ensures now + Flush(s, v, |s|, line) == start + all.events && |s| == all.next
  {
    BodyAtEnd(s, v, inTag, line);
  }

  // ----- src/Ecriture/Parser.c

  class Parser {
    var reader: StringReader
    var events: seq<Event>

    constructor ()
      ensures events == []
    {
      reader := new StringReader("");
      events := [];
    }

    method Process(s: string)
      modifies this
      ensures events == old(events) + Parsed(s)
    {
      reader := new StringReader(s);
      Parse(false);
      var line := reader.line;
      Emit(Done, "", line);
    }

    method Emit(kind: Kind, value: string, line: nat)
      modifies `events
      ensures events == old(events) + [Event(Token(kind, value), line)]
    {
      events := events + [Event(Token(kind, value), line)];
    }

    method ParseAttrValue()
      requires reader.Valid()
      modifies `events, reader
      ensures reader.Valid()
      ensures var r := AttrValueOut(reader.buf, old(reader.ofs));
              events == old(events) + r.events && reader.ofs == r.next
    {
      hide Close, LineAt, Covers, Grown, Text, Before;
      var prev := '\0';
      var value := Slice(0, 0);
      var line := reader.line;
      ghost var s, i := reader.buf, reader.ofs;
      CoversStart(s, i);
      while !reader.IsEnd()
        invariant reader.Valid() && i <= reader.ofs && events == old(events)
        invariant Covers(s, value, i, reader.ofs)
        invariant prev == if reader.ofs == i then '\0' else s[reader.ofs - 1]
        invariant Close(s, i, reader.ofs, false) == Close(s, i, i, false)
        decreases |s| - reader.ofs
      {
        CloseStep(s, i, reader.ofs, false);
        var c := reader.Peek();
        if c == ']' && prev != '`' {
          CoversText(s, value, i, reader.ofs);
          reader.Consume();
          Emit(AttrValue, Text(reader.buf, value), line);
          break;
        } else {
          CoversMore(s, value, i, reader.ofs);
          value := reader.Extend(value);
        }
        prev := c;
      }
    }

    /** At the equals sign of an option that begins at i: hand out the name, and read the value. */
    method TakeAttr(value: Slice, line: nat, ghost i: nat)
      requires reader.Valid() && reader.Peek() == '=' && !reader.IsEnd() && Covers(reader.buf, value, i, reader.ofs)
      requires Close(reader.buf, i, i, true) == reader.ofs && line == LineAt(reader.buf, i)
      modifies `events, reader
      ensures reader.Valid()
      ensures var r := OptionOut(reader.buf, i); events == old(events) + r.events && reader.ofs == r.next
    {
      hide Close, LineAt, Covers, Text, Before, AttrValueOut, OptionOut;
      CoversText(reader.buf, value, i, reader.ofs);
      OptionAt(reader.buf, i, reader.ofs);
      reader.Consume();
      Emit(AttrName, Text(reader.buf, value), line);
      ParseAttrValue();
    }

    method ParseOption()
      requires reader.Valid()
      modifies `events, reader
      ensures reader.Valid()
      ensures var r := OptionOut(reader.buf, old(reader.ofs)); events == old(events) + r.events && reader.ofs == r.next
    {
      hide Close, LineAt, Covers, Grown, Text, Before, AttrValueOut, OptionOut;
      var prev := '\0';
      var value := Slice(0, 0);
      var line := reader.line;
      ghost var s, i := reader.buf, reader.ofs;
      CoversStart(s, i);
      while !reader.IsEnd()
        invariant reader.Valid() && i <= reader.ofs && events == old(events)
        invariant Covers(s, value, i, reader.ofs)
        invariant prev == if reader.ofs == i then '\0' else s[reader.ofs - 1]
        invariant Close(s, i, reader.ofs, true) == Close(s, i, i, true)
        decreases |s| - reader.ofs
      {
        CloseStep(s, i, reader.ofs, true);
        var c := reader.Peek();
        if c == ']' && prev != '`' {
          CoversText(s, value, i, reader.ofs);
          OptionAt(s, i, reader.ofs);
          reader.Consume();
          Emit(Option, Text(reader.buf, value), line);
          return;
        } else if c == '=' && prev != '`' {
          TakeAttr(value, line, i);
          return;
        } else {
          CoversMore(s, value, i, reader.ofs);
          value := reader.Extend(value);
        }
        prev := c;
      }
      CloseAtEnd(s, i, true);
      OptionAt(s, i, |s|);
    }

    method ParseComment()
      requires reader.Valid()
      modifies `events, reader
      ensures reader.Valid()
      ensures var r := CommentOut(reader.buf, old(reader.ofs)); events == old(events) + r.events && reader.ofs == r.next
    {
      hide CommentEnd, LineAt, Covers, Grown, Text, Before, CommentOut;
      var comment := Slice(0, 0);
      var line := reader.line;
      ghost var s, i := reader.buf, reader.ofs;
      CoversStart(s, i);
      while !reader.IsEnd()
        invariant reader.Valid() && i <= reader.ofs && events == old(events)
        invariant Covers(s, comment, i, reader.ofs)
        invariant CommentEnd(s, reader.ofs) == CommentEnd(s, i)
        decreases |s| - reader.ofs
      {
        CommentStep(s, reader.ofs);
        var c := reader.Peek();
        var next := reader.Peek(1);
        if c == '*' && next == '/' {
          CoversText(s, comment, i, reader.ofs);
          CommentAt(s, i, reader.ofs);
          reader.Consume();
          reader.Consume();
          Emit(Comment, Text(reader.buf, comment), line);
          return;
        } else {
          CoversMore(s, comment, i, reader.ofs);
          comment := reader.Extend(comment);
        }
      }
      CommentAtEnd(s);
      CommentAt(s, i, |s|);
    }

    method ParseLiteral()
      requires reader.Valid()
      modifies `events, reader
      ensures reader.Valid()
      ensures var r := LiteralOut(reader.buf, old(reader.ofs)); events == old(events) + r.events && reader.ofs == r.next
    {
      hide LiteralEnd, LineAt, Covers, Grown, Text, Before, LiteralOut;
      var value := Slice(0, 0);
      var line := reader.line;
      ghost var s, i := reader.buf, reader.ofs;
      CoversStart(s, i);
      while !reader.IsEnd()
        invariant reader.Valid() && i <= reader.ofs && events == old(events)
        invariant Covers(s, value, i, reader.ofs)
        invariant LiteralEnd(s, reader.ofs) == LiteralEnd(s, i)
        decreases |s| - reader.ofs
      {
        LiteralStep(s, reader.ofs);
        var c := reader.Peek();
        var next := reader.Peek(1);
        CoversMore(s, value, i, reader.ofs);
        if c == '`' && next == '`' {
          value := reader.Extend(value);
          CoversMore(s, value, i, reader.ofs);
          value := reader.Extend(value);
        } else if c == '`' {
          CoversText(s, value, i, reader.ofs);
          LiteralAt(s, i, reader.ofs);
          reader.Consume();
          Emit(Literal, Text(reader.buf, value), line);
          return;
        } else {
          value := reader.Extend(value);
        }
      }
      LiteralAtEnd(s);
      LiteralAt(s, i, |s|);
    }

    /** Whether the dot under the cursor begins a tag. */
    method IsTag() returns (r: bool)
      requires reader.Valid() && !reader.IsEnd()
      ensures r == IsTagAt(reader.buf, reader.ofs + 1)
    {
      var ofs := 1;
      while reader.ofs + ofs < |reader.buf|
        invariant 1 <= ofs <= |reader.buf| - reader.ofs
        invariant IsTagAt(reader.buf, reader.ofs + ofs) == IsTagAt(reader.buf, reader.ofs + 1)
        decreases |reader.buf| - ofs
      {
        var cur := reader.Peek(ofs);
        if cur == '{' || cur == '[' {
          return true;
        }
        if !Chars.IsSpace(cur) && !Chars.IsAlpha(cur) && !Chars.IsDigit(cur) {
          return false;
        }
        ofs := ofs + 1;
      }
      return false;
    }

    /** Hand out the name of a tag, unless it is all white space. */
    method TakeName(name: Slice, line: nat) returns (rest: Slice)
      requires Before(name, |reader.buf|)
      modifies `events
      ensures var e := NameEvent(reader.buf, name, line);
              events == old(events) + e && rest == if e == [] then name else Slice(0, 0)
    {
      rest := name;
      var auxName := Chars.Trim(Text(reader.buf, name));
      if |auxName| != 0 {
        Emit(TagStart, auxName, line);
        rest := Slice(0, 0);
      }
    }

    method ParseTag()
      requires reader.Valid()
      modifies `events, reader
      ensures reader.Valid()
      ensures var r := FreshTag(reader.buf, old(reader.ofs));
              events == old(events) + r.events && reader.ofs == r.next
      decreases |reader.buf| - reader.ofs, 1
    {
      hide TagOut, BodyOut, OptionOut, NameEvent, LineAt, Text, Grown, Ahead;
      var name := Slice(0, 0);
      var line := reader.line;
      ghost var s, i := reader.buf, reader.ofs;
      ghost var all := FreshTag(s, i);
      AheadStart(events, all);
      while !reader.IsEnd()
        invariant reader.Valid() && i <= reader.ofs && Before(name, reader.ofs)
        invariant Ahead(old(events), all, events, TagOut(s, reader.ofs, name, line))
        decreases |s| - reader.ofs
      {
        ghost var before, e := events, NameEvent(s, name, line);
        TagStep(s, reader.ofs, name, line);
        var c := reader.Peek();
        if c == '[' || c == '{' {
          reader.Consume();
          name := TakeName(name, line);
        }
        if c == '[' {
          ghost var o := OptionOut(s, reader.ofs);
          ParseOption();
          AheadStep(old(events), all, before, e, o.events, TagOut(s, reader.ofs, name, line));
        } else if c == '{' {
          ghost var b := BodyOut(s, reader.ofs, reader.ofs, true, reader.line);
          Parse(true);
          Emit(TagEnd, "", line);
          AheadDone(old(events), all, before, e + b.events + [Event(Token(TagEnd, ""), line)], b.next);
          return;
        } else {
          name := reader.Extend(name);
        }
      }
      TagStep(s, |s|, name, line);
      AheadDone(old(events), all, events, [], |s|);
    }

    /** Hand out the text read so far, if there is any. */
    method EmitValue(value: Slice, line: nat)
      requires Before(value, |reader.buf|)
      modifies `events
      ensures events == old(events) + Flush(reader.buf, value.start, value.start + value.len, line)
    {
      if value.len != 0 {
        Emit(Value, Text(reader.buf, value), line);
      }
    }

    /** Behind a backtick: hand out the text before it, and read the literal. */
    method TakeLiteral(value: Slice, line: nat, inTag: bool, ghost v: nat, ghost start: seq<Event>, ghost all: Out)
      requires reader.Valid() && reader.Peek() == '`'
      requires Covers(reader.buf, value, v, reader.ofs)
      requires Reading(start, all, events, reader.buf, v, reader.ofs, inTag, line)
      modifies `events, reader
      ensures reader.Valid() && old(reader.ofs) < reader.ofs
      ensures Reading(start, all, events, reader.buf, reader.ofs, reader.ofs, inTag, line)
    {
      hide Covers, Reading, LiteralOut, Flush, LineAt, Before, Text;
      FlushSame(reader.buf, value, v, reader.ofs, line);
      ReadLiteral(start, all, events, reader.buf, v, reader.ofs, inTag, line);
      reader.Consume();
      EmitValue(value, line);
      ParseLiteral();
    }

    /** Behind the dot of a tag: hand out the text before it, and read the tag. */
    method TakeTag(value: Slice, line: nat, inTag: bool, ghost v: nat, ghost start: seq<Event>, ghost all: Out)
      requires reader.Valid() && reader.Peek() == '.' && IsTagAt(reader.buf, reader.ofs + 1)
      requires Covers(reader.buf, value, v, reader.ofs)
      requires Reading(start, all, events, reader.buf, v, reader.ofs, inTag, line)
      modifies `events, reader
      ensures reader.Valid() && old(reader.ofs) < reader.ofs
      ensures Reading(start, all, events, reader.buf, reader.ofs, reader.ofs, inTag, line)
      decreases |reader.buf| - reader.ofs, 0
    {
      hide Covers, Reading, FreshTag, TagOut, IsTagAt, Flush, LineAt, Before, Text;
      FlushSame(reader.buf, value, v, reader.ofs, line);
      ReadTag(start, all, events, reader.buf, v, reader.ofs, inTag, line);
      reader.Consume();
      EmitValue(value, line);
      ParseTag();
    }

    /** Behind the start of a comment: hand out the text before it, and read the comment. */
    method TakeComment(value: Slice, line: nat, inTag: bool, ghost v: nat, ghost start: seq<Event>, ghost all: Out)
      requires reader.Valid() && reader.Peek() == '/' && reader.Peek(1) == '*'
      requires Covers(reader.buf, value, v, reader.ofs)
      requires Reading(start, all, events, reader.buf, v, reader.ofs, inTag, line)
      modifies `events, reader
      ensures reader.Valid() && old(reader.ofs) < reader.ofs
      ensures Reading(start, all, events, reader.buf, reader.ofs, reader.ofs, inTag, line)
    {
      hide Covers, Reading, CommentOut, Flush, LineAt, Before, Text;
      FlushSame(reader.buf, value, v, reader.ofs, line);
      ReadComment(start, all, events, reader.buf, v, reader.ofs, inTag, line);
      reader.Consume();
      reader.Consume();
      EmitValue(value, line);
      ParseComment();
    }

    method Parse(inTag: bool)
      requires reader.Valid()
      modifies `events, reader
      ensures reader.Valid()
      ensures var i := old(reader.ofs); var r := BodyOut(reader.buf, i, i, inTag, LineAt(reader.buf, i));
              events == old(events) + r.events && reader.ofs == r.next
      decreases |reader.buf| - reader.ofs, 2
    {
      hide Covers, Reading, BodyOut, IsTagAt, Flush, LineAt, Grown, Before, Text;
      var value := Slice(0, 0);
      var line := reader.line;
      ghost var s, v := reader.buf, reader.ofs;
      ghost var all := BodyOut(s, v, v, inTag, line);
      ReadStart(events, s, v, inTag, line);
      CoversStart(s, v);
      while !reader.IsEnd()
        invariant reader.Valid() && old(reader.ofs) <= reader.ofs && Covers(s, value, v, reader.ofs)
        invariant Reading(old(events), all, events, s, v, reader.ofs, inTag, line)
        decreases |s| - reader.ofs
      {
        var c := reader.Peek();
        var next := reader.Peek(1);
        if c == '`' {
          TakeLiteral(value, line, inTag, v, old(events), all);
          value, v := Slice(0, 0), reader.ofs;
          CoversStart(s, v);
        } else {
          var tag := false;
          if c == '.' {
            tag := IsTag();
          }
          if tag {
            TakeTag(value, line, inTag, v, old(events), all);
            value, v := Slice(0, 0), reader.ofs;
            CoversStart(s, v);
          } else if c == '/' && next == '*' {
            TakeComment(value, line, inTag, v, old(events), all);
            value, v := Slice(0, 0), reader.ofs;
            CoversStart(s, v);
          } else if inTag && c == '}' {
            FlushSame(s, value, v, reader.ofs, line);
            ReadBrace(old(events), all, events, s, v, reader.ofs, line);
            reader.Consume();
            EmitValue(value, line);
            return;
          } else {
            ReadOther(old(events), all, events, s, v, reader.ofs, inTag, line);
            CoversMore(s, value, v, reader.ofs);
            value := reader.Extend(value);
          }
        }
      }
      FlushSame(s, value, v, |s|, line);
      ReadEnd(old(events), all, events, s, v, inTag, line);
      EmitValue(value, line);
    }
  }

  // ----- src/Ecriture/Builder.c

  /** What stands for a token in the text. */
  function Shape(token: Token): string {
    match token.kind
    case Value => token.value
    case TagStart => "." + token.value
    case TagEnd => "}"
    case Comment => "/*" + token.value + "*/"
    case Option => "[" + token.value + "]"
    case AttrName => "[" + token.value + "="
    case AttrValue => token.value + "]"
    case Literal => ""
    case Done => ""
  }

  /** What the builder writes for a token, and whether an opening brace is still due. */
  function Written(due: bool, token: Token): string {
    (if due && token.kind !in {Option, AttrName, AttrValue} then "{" else "") + Shape(token)
  }

  predicate Due(due: bool, token: Token) {
    token.kind == TagStart || (due && token.kind in {Option, AttrName, AttrValue})
  }

  function Printed(due: bool, tokens: seq<Token>): string
    decreases |tokens|
  {
    if tokens == [] then "" else Written(due, tokens[0]) + Printed(Due(due, tokens[0]), tokens[1..])
  }

  class Builder {
    var stream: string
    var flush: bool

    constructor ()
      ensures stream == "" && !flush
    {
      stream, flush := "", false;
    }

    method Write(str: string)
      modifies `stream
      ensures stream == old(stream) + str
    {
      stream := stream + str;
    }

    method ProcessToken(kind: Kind, value: string)
      modifies this
      ensures stream == old(stream) + Written(old(flush), Token(kind, value))
      ensures flush == Due(old(flush), Token(kind, value))
    {
      hide Shape;
      if flush && kind != Option && kind != AttrName && kind != AttrValue {
        Write("{");
        flush := false;
      }
      WriteShape(kind, value);
    }

    method WriteAll(left: string, middle: string, right: string)
      modifies `stream
      ensures stream == old(stream) + (left + middle + right)
    {
      Write(left);
      Write(middle);
      Write(right);
      Glue(old(stream), left, middle, right);
    }

    lemma Glue(a: string, b: string, c: string, d: string)
      ensures a + b + c + d == a + (b + c + d)
    {
    }

    method WriteShape(kind: Kind, value: string)
      modifies this
      ensures stream == old(stream) + Shape(Token(kind, value))
      ensures flush == (kind == TagStart || (kind != Done && old(flush)))
    {
      if kind == Value {
        Write(value);
      } else if kind == TagStart {
        flush := true;
        WriteAll(".", value, "");
      } else if kind == TagEnd {
        Write("}");
      } else if kind == Comment {
        WriteAll("/*", value, "*/");
      } else if kind == Option {
        WriteAll("[", value, "]");
      } else if kind == AttrName {
        WriteAll("[", value, "=");
      } else if kind == AttrValue {
        WriteAll("", value, "]");
      } else if kind == Done {
        flush := false;
      }
    }
  }
}
