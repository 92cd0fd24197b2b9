/** src/YAML/Parser.c: a document of names at tab depths, with values and comments. */
module Yaml {
  import opened Sequences
  import opened Slices
  import opened StringReader
  import Chars

  datatype Kind = Comment | Name | Value | Enter | Leave

  datatype Token = Token(kind: Kind, value: string)

  /** How parsing ends: it goes through, or an exception is thrown. */
  datatype Fault = Fine | ColonMissing | InvalidIndention | SpaceIndention

  /** A name, the depth that was committed for it, and its value, which may be empty. */
  datatype Entry = Entry(depth: nat, name: string, value: string)

  // ----- what is read, as a function of the position

  datatype Piece = Piece(tokens: seq<Token>, next: nat)

  function LineEnd(s: string, j: nat): (r: nat)
    requires j <= |s|
    ensures j <= r <= |s| && (r < |s| ==> s[r] == '\n')
    decreases |s| - j
  {
    if j == |s| || s[j] == '\n' then j else LineEnd(s, j + 1)
  }

  /** A comment, up to and with the end of its line. */
  function CommentPiece(s: string, i: nat): (r: Piece)
    requires i <= |s|
    ensures i <= r.next <= |s|
  {
    var j := LineEnd(s, i);
    Piece(if i == j then [] else [Token(Comment, s[i..j])], if j == |s| then j else j + 1)
  }

  datatype ValueScan = ValueScan(tokens: seq<Token>, value: Slice, next: nat)

  /** The value from j on, of which a slice was read. A comment in it ends with its line, the
      value goes on behind it. */
  function Scanned(s: string, j: nat, value: Slice): (r: ValueScan)
    requires j <= |s| && Before(value, j)
    ensures j <= r.next <= |s| && Before(r.value, |s|)
    decreases |s| - j
  {
    if j == |s| then ValueScan([], value, j)
    else if s[j] == '\n' then ValueScan([], value, j + 1)
    else if s[j] == '#' then
      var c := CommentPiece(s, j + 1);
      var r := Scanned(s, c.next, value);
      ValueScan(c.tokens + r.tokens, r.value, r.next)
    else Scanned(s, j + 1, Grown(value, j))
  }

  function ValueText(s: string, i: nat): string
    requires i <= |s|
  {
    Chars.Trim(Text(s, Scanned(s, i, Slice(0, 0)).value))
  }

  function ValuePiece(s: string, i: nat): (r: Piece)
    requires i <= |s|
    ensures i <= r.next <= |s|
  {
    var v := Scanned(s, i, Slice(0, 0));
    var t := ValueText(s, i);
    Piece(v.tokens + (if t == "" then [] else [Token(Value, t)]), v.next)
  }

  function Leaves(n: nat): seq<Token> {
    if n == 0 then [] else [Token(Leave, "")] + Leaves(n - 1)
  }

  /** The tokens that lead from depth prev to depth. */
  function Moves(prev: nat, depth: nat): seq<Token> {
    if depth > prev then [Token(Enter, "")] else Leaves(prev - depth)
  }

  /** The tokens, the names committed, how it ends and the depth that was committed last. */
  datatype Out = Out(tokens: seq<Token>, entries: seq<Entry>, fault: Fault, prev: nat)

  function Then(tokens: seq<Token>, entries: seq<Entry>, r: Out): Out {
    Out(tokens + r.tokens, entries + r.entries, r.fault, r.prev)
  }

  /** Parse at j: the name read so far is the text from v to j, behind depth tabs; prev is
      the depth committed last, and can tells whether the next name may be indented deeper. */
  function ParseOut(s: string, v: nat, j: nat, depth: nat, prev: nat, can: bool): Out
    requires v <= j <= |s|
    decreases |s| - j
  {
    if j == |s| then
      Out([], [], if v < j then ColonMissing else Fine, prev)
    else if s[j] == '#' then
      var c := CommentPiece(s, j + 1);
      Then(c.tokens, [], ParseOut(s, c.next, c.next, 0, prev, false))
    else if s[j] == ':' then
      if depth > prev && (!can || depth != prev + 1) then
        Out([], [], InvalidIndention, prev)
      else
        var name := Chars.TrimRight(s[v..j]);
        var p := ValuePiece(s, j + 1);
        Then(Moves(prev, depth) + [Token(Name, name)] + p.tokens, [Entry(depth, name, ValueText(s, j + 1))],
             ParseOut(s, p.next, p.next, 0, depth, true))
    else if s[j] == ' ' && v == j then
      Out([], [], SpaceIndention, prev)
    else if s[j] == '\t' && v == j then
      ParseOut(s, j + 1, j + 1, depth + 1, prev, can)
    else if s[j] == '\n' && v < j then
      Out([], [], ColonMissing, prev)
    else if v < j || !Chars.IsSpace(s[j]) then
      ParseOut(s, v, j + 1, depth, prev, can)
    else
      ParseOut(s, j + 1, j + 1, depth, prev, can)
  }

  /** A whole document; the sections still open at its end are left. */
  function Processed(s: string): Out {
    var p := ParseOut(s, 0, 0, 0, 0, false);
    if p.fault == Fine then p.(tokens := p.tokens + Leaves(p.prev)) else p
  }

  // ----- one step of each

  lemma LineEndStep(s: string, j: nat)
    requires j < |s|
    ensures LineEnd(s, |s|) == |s| && LineEnd(s, j) == if s[j] == '\n' then j else LineEnd(s, j + 1)
  {
  }

  lemma ScannedStep(s: string, j: nat, value: Slice)
    requires j <= |s| && Before(value, j)
    ensures j == |s| ==> Scanned(s, j, value) == ValueScan([], value, j)
    ensures j < |s| && s[j] == '\n' ==> Scanned(s, j, value) == ValueScan([], value, j + 1)
    ensures j < |s| && s[j] == '#' ==>
              var c := CommentPiece(s, j + 1);
              var r := Scanned(s, c.next, value);
              Scanned(s, j, value) == ValueScan(c.tokens + r.tokens, r.value, r.next)
    ensures j < |s| && s[j] != '\n' && s[j] != '#' ==> Scanned(s, j, value) == Scanned(s, j + 1, Grown(value, j))
  {
  }

  lemma ValueTokens(s: string, i: nat, before: seq<Token>)
    requires i <= |s|
    ensures var v, p := Scanned(s, i, Slice(0, 0)), ValuePiece(s, i);
            var t := Chars.Trim(Text(s, v.value));
            p.next == v.next && before + p.tokens == before + v.tokens + (if t == "" then [] else [Token(Value, t)])
  {
    hide Scanned, Chars.Trim, Text;
  }

  lemma ParseEnd(s: string, v: nat, depth: nat, prev: nat, can: bool)
    requires v <= |s|
    ensures ParseOut(s, v, |s|, depth, prev, can) == Out([], [], if v < |s| then ColonMissing else Fine, prev)
  {
  }

  lemma ParseHash(s: string, v: nat, j: nat, depth: nat, prev: nat, can: bool)
    requires v <= j < |s| && s[j] == '#'
    ensures var c := CommentPiece(s, j + 1);
            ParseOut(s, v, j, depth, prev, can) == Then(c.tokens, [], ParseOut(s, c.next, c.next, 0, prev, false))
  {
  }

  lemma ParseColon(s: string, v: nat, j: nat, depth: nat, prev: nat, can: bool)
    requires v <= j < |s| && s[j] == ':'
    ensures var bad := depth > prev && (!can || depth != prev + 1);
            var name, p := Chars.TrimRight(s[v..j]), ValuePiece(s, j + 1);
            ParseOut(s, v, j, depth, prev, can) ==
            if bad then Out([], [], InvalidIndention, prev)
            else Then(Moves(prev, depth) + [Token(Name, name)] + p.tokens, [Entry(depth, name, ValueText(s, j + 1))],
                      ParseOut(s, p.next, p.next, 0, depth, true))
  {
    hide Chars.TrimRight;
  }

  lemma ParseChar(s: string, v: nat, j: nat, depth: nat, prev: nat, can: bool)
    requires v <= j < |s| && s[j] != '#' && s[j] != ':'
    ensures v < j && s[j] == '\n' ==> ParseOut(s, v, j, depth, prev, can) == Out([], [], ColonMissing, prev)
    ensures v < j && s[j] != '\n' ==> ParseOut(s, v, j, depth, prev, can) == ParseOut(s, v, j + 1, depth, prev, can)
    ensures v == j && s[j] == ' ' ==> ParseOut(s, v, j, depth, prev, can) == Out([], [], SpaceIndention, prev)
    ensures v == j && s[j] == '\t' ==>
              ParseOut(s, v, j, depth, prev, can) == ParseOut(s, j + 1, j + 1, depth + 1, prev, can)
    ensures v == j && !Chars.IsSpace(s[j]) ==>
              ParseOut(s, v, j, depth, prev, can) == ParseOut(s, v, j + 1, depth, prev, can)
    ensures v == j && Chars.IsSpace(s[j]) && s[j] != ' ' && s[j] != '\t' ==>
              ParseOut(s, v, j, depth, prev, can) == ParseOut(s, j + 1, j + 1, depth, prev, can)
  {
  }

  /** With the tokens now handed out, rest is what is missing from all. */
  ghost predicate Ahead(start: seq<Token>, all: Out, now: seq<Token>, rest: Out) {
    all.fault == rest.fault && all.prev == rest.prev && start + all.tokens == now + rest.tokens
  }

  lemma AheadStart(start: seq<Token>, all: Out)
    ensures Ahead(start, all, start, all)
  {
  }

  lemma AheadStep(start: seq<Token>, all: Out, now: seq<Token>, tokens: seq<Token>, entries: seq<Entry>, rest: Out)
    requires Ahead(start, all, now, Then(tokens, entries, rest))
    ensures Ahead(start, all, now + tokens, rest)
  {
    assert now + tokens + rest.tokens == now + (tokens + rest.tokens);
  }

  lemma AheadDone(start: seq<Token>, all: Out, now: seq<Token>, fault: Fault, prev: nat)
    requires Ahead(start, all, now, Out([], [], fault, prev))
    ensures now == start + all.tokens && all.fault == fault && all.prev == prev
  {
  }

  // ----- the parser

  class Parser {
    var depth: nat
    var prevDepth: nat
    var reader: StringReader
    var tokens: seq<Token>

    constructor ()
      ensures tokens == []
    {
      depth, prevDepth, tokens := 0, 0, [];
      reader := new StringReader("");
    }

    method Emit(kind: Kind, value: string)
      modifies `tokens
      ensures tokens == old(tokens) + [Token(kind, value)]
    {
      tokens := tokens + [Token(kind, value)];
    }

    predicate Indent()
      reads `depth, `prevDepth
    {
      depth > prevDepth
    }

    method EmitLeaves(n: nat)
      modifies `tokens
      ensures tokens == old(tokens) + Leaves(n)
    {
      var k: nat := 0;
      while k < n
        invariant k <= n && tokens + Leaves(n - k) == old(tokens) + Leaves(n)
      {
        assert Leaves(n - k) == [Token(Leave, "")] + Leaves(n - k - 1);
        Emit(Leave, "");
        k := k + 1;
      }
    }

    method CommitDepth() returns (fault: Fault)
      modifies `depth, `prevDepth, `tokens
      ensures old(depth) > old(prevDepth) + 1 ==>
                fault == InvalidIndention && tokens == old(tokens) && depth == old(depth) && prevDepth == old(prevDepth)
      ensures old(depth) <= old(prevDepth) + 1 ==>
                fault == Fine && tokens == old(tokens) + Moves(old(prevDepth), old(depth)) && prevDepth == old(depth)
                && depth == 0
    {
      if depth > prevDepth {
        if depth != prevDepth + 1 {
          return InvalidIndention;
        }
        Emit(Enter, "");
      } else {
        EmitLeaves(prevDepth - depth);
      }
      prevDepth := depth;
      depth := 0;
      return Fine;
    }

    method ParseComment()
      requires reader.Valid()
      modifies `tokens, reader
      ensures reader.Valid()
      ensures var r := CommentPiece(reader.buf, old(reader.ofs));
              tokens == old(tokens) + r.tokens && reader.ofs == r.next
    {
      hide LineEnd, Covers, LineAt, Grown, Before, Text;
      var comment := Slice(0, 0);
      ghost var s, i := reader.buf, reader.ofs;
      ghost var j := i;
      CoversStart(s, i);
      while !reader.IsEnd()
        invariant reader.Valid() && i <= j == reader.ofs && Covers(s, comment, i, j) && tokens == old(tokens)
        invariant LineEnd(s, j) == LineEnd(s, i)
        decreases |s| - reader.ofs
      {
        var c := reader.Peek();
        LineEndStep(s, j);
        if c == '\n' {
          reader.Consume();
          break;
        } else {
          CoversMore(s, comment, i, j);
          comment := reader.Extend(comment);
          j := j + 1;
        }
      }
      CoversText(s, comment, i, j);
      if comment.len != 0 {
        Emit(Comment, Text(reader.buf, comment));
      }
    }

    method ParseValue()
      requires reader.Valid()
      modifies `tokens, reader
      ensures reader.Valid()
      ensures var r := ValuePiece(reader.buf, old(reader.ofs)); tokens == old(tokens) + r.tokens && reader.ofs == r.next
    {
      hide Scanned, CommentPiece, ValuePiece, ValueText, LineAt, Grown, Text, Chars.Trim;
      var value := Slice(0, 0);
      ghost var s, i := reader.buf, reader.ofs;
      ghost var all := Scanned(s, i, value);
      ghost var rest := all;
      while !reader.IsEnd()
        invariant reader.Valid() && i <= reader.ofs && Before(value, reader.ofs)
        invariant rest == Scanned(s, reader.ofs, value) && rest.next == all.next && rest.value == all.value
        invariant tokens + rest.tokens == old(tokens) + all.tokens
        decreases |s| - reader.ofs
      {
        var c := reader.Peek();
        ScannedStep(s, reader.ofs, value);
        if c == '\n' {
          reader.Consume();
          rest := ValueScan([], value, reader.ofs);
          break;
        } else if c == '#' {
          reader.Consume();
          ghost var before, k := tokens, CommentPiece(s, reader.ofs);
          ParseComment();
          rest := Scanned(s, reader.ofs, value);
          assert before + (k.tokens + rest.tokens) == tokens + rest.tokens;
        } else {
          value := reader.Extend(value);
          rest := Scanned(s, reader.ofs, value);
        }
      }
      ScannedStep(s, |s|, value);
      assert rest.tokens == [] && rest.value == value && rest.next == reader.ofs;
      var trimmed := Chars.Trim(Text(reader.buf, value));
      assert tokens == old(tokens) + all.tokens;
      if |trimmed| != 0 {
        Emit(Value, trimmed);
      }
      ValueTokens(s, i, old(tokens));
    }

    /** At a colon: commit the depth, hand out the name and read the value. */
    method TakeEntry(name: Slice, canIndent: bool, ghost v: nat, ghost start: seq<Token>, ghost all: Out)
      returns (fault: Fault)
      requires reader.Valid() && !reader.IsEnd() && reader.Peek() == ':'
      requires Covers(reader.buf, name, v, reader.ofs) && v <= reader.ofs
      requires Ahead(start, all, tokens, ParseOut(reader.buf, v, reader.ofs, depth, prevDepth, canIndent))
      modifies this`depth, this`prevDepth, this`tokens, reader
      ensures reader.Valid() && old(reader.ofs) < reader.ofs
      ensures fault == Fine ==>
                var i := reader.ofs;
                depth == 0 && Ahead(start, all, tokens, ParseOut(reader.buf, i, i, 0, prevDepth, true))
      ensures fault != Fine ==> tokens == start + all.tokens && all.fault == fault && all.prev == prevDepth
    {
      hide ParseOut, Ahead, Covers, CommentPiece, ValuePiece, ValueText, Moves, Then, LineAt, Grown, Before, Text,
           Chars.TrimRight, Chars.IsSpace;
      ghost var s, j, before := reader.buf, reader.ofs, tokens;
      CoversText(s, name, v, j);
      ParseColon(s, v, j, depth, prevDepth, canIndent);
      reader.Consume();
      if !canIndent && Indent() {
        AheadDone(start, all, before, InvalidIndention, prevDepth);
        return InvalidIndention;
      }
      ghost var moves, text, value := Moves(prevDepth, depth), Chars.TrimRight(s[v..j]), ValuePiece(s, j + 1);
      ghost var d := depth;
      fault := CommitDepth();
      if fault != Fine {
        AheadDone(start, all, before, InvalidIndention, prevDepth);
        return;
      }
      Emit(Name, Chars.TrimRight(Text(reader.buf, name)));
      ParseValue();
      depth := 0;
      Regroup(before, moves, [Token(Name, text)], value.tokens);
      AheadStep(start, all, before, moves + [Token(Name, text)] + value.tokens, [Entry(d, text, ValueText(s, j + 1))],
                ParseOut(s, reader.ofs, reader.ofs, 0, d, true));
    }

    method Parse() returns (fault: Fault)
      requires reader.Valid() && depth == 0
      modifies this, reader
      ensures reader == old(reader) && reader.Valid()
      ensures var i := old(reader.ofs); var r := ParseOut(reader.buf, i, i, 0, old(prevDepth), false);
              fault == r.fault && tokens == old(tokens) + r.tokens && prevDepth == r.prev
    {
      hide ParseOut, Ahead, Covers, CommentPiece, ValuePiece, ValueText, Moves, Then, LineAt, Grown, Before, Text,
           Chars.TrimRight, Chars.IsSpace;
      var name := Slice(0, 0);
      var canIndent := false;
      ghost var s := reader.buf;
      ghost var v: nat := reader.ofs;
      ghost var all := ParseOut(s, v, v, 0, prevDepth, false);
      AheadStart(tokens, all);
      CoversStart(s, v);
      while !reader.IsEnd()
        invariant reader == old(reader) && reader.Valid() && Covers(s, name, v, reader.ofs) && v <= reader.ofs
        invariant Ahead(old(tokens), all, tokens, ParseOut(s, v, reader.ofs, depth, prevDepth, canIndent))
        decreases |s| - reader.ofs
      {
        ghost var j, before := reader.ofs, tokens;
        CoversText(s, name, v, j);
        var c := reader.Peek();
        if c == '#' {
          ParseHash(s, v, j, depth, prevDepth, canIndent);
          name, depth, canIndent := Slice(0, 0), 0, false;
          reader.Consume();
          ParseComment();
          v := reader.ofs;
          CoversStart(s, v);
          AheadStep(old(tokens), all, before, CommentPiece(s, j + 1).tokens, [],
                    ParseOut(s, v, v, 0, prevDepth, false));
        } else if c == ':' {
          fault := TakeEntry(name, canIndent, v, old(tokens), all);
          if fault != Fine {
            return;
          }
          name, canIndent := Slice(0, 0), true;
          v := reader.ofs;
          CoversStart(s, v);
        } else {
          ParseChar(s, v, j, depth, prevDepth, canIndent);
          if c == ' ' && name.len == 0 {
            AheadDone(old(tokens), all, before, SpaceIndention, prevDepth);
            return SpaceIndention;
          } else if c == '\t' && name.len == 0 {
            CoversNothing(s, name, v, j);
            reader.Consume();
            depth := depth + 1;
            v := reader.ofs;
          } else if c == '\n' && name.len != 0 {
            AheadDone(old(tokens), all, before, ColonMissing, prevDepth);
            return ColonMissing;
          } else if name.len != 0 || !Chars.IsSpace(c) {
            CoversMore(s, name, v, j);
            name := reader.Extend(name);
          } else {
            CoversNothing(s, name, v, j);
            reader.Consume();
            v := reader.ofs;
          }
        }
      }
      CoversText(s, name, v, |s|);
      ParseEnd(s, v, depth, prevDepth, canIndent);
      AheadDone(old(tokens), all, tokens, if v < |s| then ColonMissing else Fine, prevDepth);
      if name.len != 0 {
        return ColonMissing;
      }
      return Fine;
    }

    method Process(s: string) returns (fault: Fault)
      modifies this
      ensures fault == Processed(s).fault && tokens == old(tokens) + Processed(s).tokens
    {
      hide ParseOut;
      depth := 0;
      prevDepth := 0;
      reader := new StringReader(s);
      fault := Parse();
      if fault != Fine {
        return;
      }
      EmitLeaves(prevDepth);
    }
  }
}
