/** Printing the tokens of a well-nested document and parsing the text gives the same tokens. */
module EcritureRoundTrip {
  import opened Ecriture
  import opened EcritureReading
  import opened EcritureText
  import opened Sequences
  import opened StringReader
  import Chars

  // ----- the builder writes the text

  lemma PrintedCons(due: bool, t: Token, more: seq<Token>)
    ensures Printed(due, [t] + more) == Written(due, t) + Printed(Due(due, t), more)
  {
    assert ([t] + more)[1..] == more;
  }

  lemma WrittenInTag(t: Token)
    requires t.kind in {Option, AttrName, AttrValue}
    ensures Written(true, t) == Shape(t) && Due(true, t)
  {
  }

  lemma PrintedAttr(n: string, v: string, more: seq<Token>)
    ensures Printed(true, OptTokens(Attr(n, v, "")) + more) == Bracket(Attr(n, v, "")) + Printed(true, more)
  {
    var a, b := Token(AttrName, n), Token(AttrValue, v);
    assert OptTokens(Attr(n, v, "")) + more == [a] + ([b] + more);
    assert Bracket(Attr(n, v, "")) == Shape(a) + Shape(b) by {
      Assoc("[" + n + "=", v, "]");
    }
    hide *;
    PrintedCons(true, b, more);
    PrintedCons(true, a, [b] + more);
    WrittenInTag(a);
    WrittenInTag(b);
    Assoc(Shape(a), Shape(b), Printed(true, more));
  }

  lemma PrintedOpt(o: Opt, more: seq<Token>)
    requires o.gap == ""
    ensures Printed(true, OptTokens(o) + more) == OptShown(o) + Printed(true, more)
  {
    assert OptShown(o) == Bracket(o);
    match o
    case Plain(t, _) =>
      hide Printed;
      PrintedCons(true, Token(Option, t), more);
    case Attr(n, v, _) =>
      hide *;
      PrintedAttr(n, v, more);
  }

  lemma {:induction false} PrintedOpts(os: seq<Opt>, more: seq<Token>)
    requires forall o | o in os :: o.gap == ""
    ensures Printed(true, OptsTokens(os) + more) == OptsShown(os) + Printed(true, more)
  {
    if os == [] {
      assert OptsTokens(os) + more == more;
    } else {
      hide *;
      PrintedOpts(os[1..], more);
      PrintedOpt(os[0], OptsTokens(os[1..]) + more);
      OptsCons(os);
      Assoc(OptTokens(os[0]), OptsTokens(os[1..]), more);
      Assoc(OptShown(os[0]), OptsShown(os[1..]), Printed(true, more));
    }
  }

  /** The brace that is due is written before the next token that is not an option. */
  lemma PrintedBrace(t: Token, more: seq<Token>)
    requires t.kind !in {Option, AttrName, AttrValue}
    ensures Printed(true, [t] + more) == "{" + Printed(false, [t] + more)
  {
    hide Printed, Shape;
    PrintedCons(true, t, more);
    PrintedCons(false, t, more);
    Assoc("{", Shape(t), Printed(Due(false, t), more));
  }

  lemma BodyBrace(d: Doc, more: seq<Token>)
    requires Printable(d)
    ensures var tokens := TokensOf(d) + ([Token(TagEnd, "")] + more);
            Printed(true, tokens) == "{" + Printed(false, tokens)
  {
    var all := TokensOf(d) + ([Token(TagEnd, "")] + more);
    FirstToken(d);
    assert all == [all[0]] + all[1..];
    hide *;
    PrintedBrace(all[0], all[1..]);
  }

  lemma FirstToken(d: Doc)
    requires Printable(d)
    ensures TokensOf(d) != [] ==> TokensOf(d)[0].kind in {Value, Comment, TagStart, Literal}
  {
  }

  lemma PrintedSimple(t: Token, more: seq<Token>, rest: seq<Token>, text: string)
    requires t.kind in {Value, Comment, Literal, TagEnd}
    requires Printed(false, rest + more) == text + Printed(false, more)
    ensures Printed(false, [t] + rest + more) == Shape(t) + text + Printed(false, more)
  {
    assert Written(false, t) == Shape(t) && !Due(false, t);
    hide *;
    Assoc([t], rest, more);
    PrintedCons(false, t, rest + more);
    Assoc(Shape(t), text, Printed(false, more));
  }

  /** The builder writes the text of the document without its literals. */
  lemma {:induction false} PrintedDoc(d: Doc, more: seq<Token>)
    requires Printable(d)
    ensures Printed(false, TokensOf(d) + more) == Shown(Bare(d)) + Printed(false, more)
  {
    match d
    case End =>
      assert TokensOf(d) + more == more;
    case Prose(t, rest) =>
      hide Printed;
      PrintedDoc(rest, more);
      PrintedSimple(Token(Value, t), more, TokensOf(rest), Shown(Bare(rest)));
    case Note(t, rest) =>
      hide Printed;
      PrintedDoc(rest, more);
      PrintedSimple(Token(Comment, t), more, TokensOf(rest), Shown(Bare(rest)));
    case Quote(t, rest) =>
      hide Printed;
      PrintedDoc(rest, more);
      PrintedSimple(Token(Literal, t), more, TokensOf(rest), Shown(Bare(rest)));
      assert "" + Shown(Bare(rest)) == Shown(Bare(rest));
    case Element(n, os, body, rest) =>
      assert Printable(body) && Printable(rest) && forall o | o in os :: o.gap == "";
      assert Bare(d) == Element(n, os, Bare(body), Bare(rest));
      hide *;
      PrintedDoc(rest, more);
      PrintedDoc(body, [Token(TagEnd, "")] + (TokensOf(rest) + more));
      PrintedElement(n, os, body, rest, more);
  }

  lemma ElementTokens(n: string, os: seq<Opt>, body: Doc, rest: Doc, more: seq<Token>)
    ensures TokensOf(Element(n, os, body, rest)) + more ==
            [Token(TagStart, n)] + (OptsTokens(os) + (TokensOf(body) + ([Token(TagEnd, "")] + (TokensOf(rest) + more))))
  {
    var a, b, c, d, e := [Token(TagStart, n)], OptsTokens(os), TokensOf(body), [Token(TagEnd, "")], TokensOf(rest);
    assert TokensOf(Element(n, os, body, rest)) == a + b + c + d + e;
    hide *;
    Assoc(a + b + c + d, e, more);
    Assoc(a + b + c, d, e + more);
    Assoc(a + b, c, d + (e + more));
    Assoc(a, b, c + (d + (e + more)));
  }

  lemma PrintedElement(n: string, os: seq<Opt>, body: Doc, rest: Doc, more: seq<Token>)
    requires Printable(body) && forall o | o in os :: o.gap == ""
    requires Printed(false, TokensOf(rest) + more) == Shown(Bare(rest)) + Printed(false, more)
    requires var after := [Token(TagEnd, "")] + (TokensOf(rest) + more);
             Printed(false, TokensOf(body) + after) == Shown(Bare(body)) + Printed(false, after)
    ensures Printed(false, TokensOf(Element(n, os, body, rest)) + more) ==
            Shown(Element(n, os, Bare(body), Bare(rest))) + Printed(false, more)
  {
    var last := TokensOf(rest) + more;
    var inner := TokensOf(body) + ([Token(TagEnd, "")] + last);
    assert Written(false, Token(TagStart, n)) == "." + n && Due(false, Token(TagStart, n));
    assert Written(false, Token(TagEnd, "")) == "}" && !Due(false, Token(TagEnd, ""));
    hide *;
    ElementTokens(n, os, body, rest, more);
    ElementShown(n, os, Bare(body), Bare(rest), Printed(false, more));
    PrintedCons(false, Token(TagStart, n), OptsTokens(os) + inner);
    PrintedOpts(os, inner);
    BodyBrace(body, last);
    PrintedCons(false, Token(TagEnd, ""), last);
  }

  // ----- tokens and events

  function Tokens(es: seq<Event>): seq<Token> {
    seq(|es|, k requires 0 <= k < |es| => es[k].token)
  }

  lemma TokensJoin(a: seq<Event>, b: seq<Event>)
    ensures Tokens(a + b) == Tokens(a) + Tokens(b)
  {
  }

  lemma OptEventTokens(o: Opt, line: nat)
    ensures Tokens(OptEvents(o, line)) == OptTokens(o)
  {
    hide Breaks;
  }

  lemma {:induction false} OptsEventTokens(os: seq<Opt>, line: nat)
    ensures Tokens(OptsEvents(os, line)) == OptsTokens(os)
  {
    hide *;
    if os == [] {
      NoOpts();
      NoEvents();
    } else {
      var next := line + Breaks(OptShown(os[0]));
      OptsEventTokens(os[1..], next);
      OptsEventsCons(os, line);
      OptsCons(os);
      OptEventTokens(os[0], line);
      TokensJoin(OptEvents(os[0], line), OptsEvents(os[1..], next));
    }
  }

  /** The tokens of a document's events are its tokens. */
  lemma {:induction false} EventTokens(d: Doc, line: nat, outer: nat)
    requires Printable(d)
    ensures Tokens(EventsOf(d, line, outer)) == TokensOf(d)
    decreases d
  {
    hide *;
    EventsStep(d, line, outer);
    TokensStep(d);
    match d
    case End =>
      EndEvents(line, outer);
      NoEvents();
    case Prose(t, rest) =>
      EventTokens(rest, line + Breaks(t), outer);
      EventAhead(Event(Token(Value, t), outer), EventsOf(rest, line + Breaks(t), outer));
    case Note(t, rest) =>
      EventTokens(rest, line + Breaks(t), outer);
      EventAhead(Event(Token(Comment, t), line), EventsOf(rest, line + Breaks(t), outer));
    case Quote(t, rest) =>
      EventTokens(rest, line + Breaks(t), outer);
      EventAhead(Event(Token(Literal, t), line), EventsOf(rest, line + Breaks(t), outer));
    case Element(n, os, body, rest) =>
      var first := line + Breaks(n) + Breaks(OptsShown(os));
      EventTokens(body, first, first);
      EventTokens(rest, first + Breaks(Shown(body)), outer);
      OptsEventTokens(os, line + Breaks(n));
      NameEventIs(n, line);
      ElementEventTokens(n, line, OptsEvents(os, line + Breaks(n)), EventsOf(body, first, first),
                         EventsOf(rest, first + Breaks(Shown(body)), outer));
  }

  /** The tokens of a document that can be printed. */
  lemma TokensStep(d: Doc)
    requires Printable(d)
    ensures (!d.End? ==> Printable(d.rest)) && (d.Element? ==> Printable(d.body) && IsName(d.name))
    ensures d.End? ==> TokensOf(d) == []
    ensures d.Prose? ==> TokensOf(d) == [Token(Value, d.text)] + TokensOf(d.rest)
    ensures d.Note? ==> TokensOf(d) == [Token(Comment, d.text)] + TokensOf(d.rest)
    ensures d.Quote? ==> TokensOf(d) == [Token(Literal, d.text)] + TokensOf(d.rest)
    ensures d.Element? ==>
            TokensOf(d) ==
            [Token(TagStart, d.name)] + OptsTokens(d.options) + TokensOf(d.body) + [Token(TagEnd, "")]
            + TokensOf(d.rest)
  {
    hide IsName, OptsTokens;
  }

  lemma NameEventIs(n: string, line: nat)
    requires IsName(n)
    ensures NameEvents(n, line) == [Event(Token(TagStart, n), line)]
  {
    hide InName, Chars.IsSpace, Chars.TrimLeft, Chars.TrimRight;
    Chars.Untrimmed(n);
    assert n[0] in n;
  }

  lemma NoEvents()
    ensures Tokens([]) == []
  {
  }

  lemma EventAhead(e: Event, more: seq<Event>)
    ensures Tokens([e] + more) == [e.token] + Tokens(more)
  {
  }

  lemma ElementEventTokens(n: string, line: nat, b: seq<Event>, c: seq<Event>, e: seq<Event>)
    ensures Tokens([Event(Token(TagStart, n), line)] + b + (c + [Event(Token(TagEnd, ""), line)]) + e) ==
            [Token(TagStart, n)] + Tokens(b) + Tokens(c) + [Token(TagEnd, "")] + Tokens(e)
  {
  }

  lemma {:induction false} BareTokens(d: Doc)
    ensures |TokensOf(Bare(d))| <= |TokensOf(d)| && (|TokensOf(Bare(d))| == |TokensOf(d)| ==> Bare(d) == d)
    ensures Printable(d) ==> Printable(Bare(d))
  {
    hide IsName, OptsTokens;
    if !d.End? {
      BareTokens(d.rest);
      if d.Element? {
        BareTokens(d.body);
      }
    }
  }

  /** Print, then parse: the literals are lost, and nothing else. */
  lemma RoundTrip(d: Doc)
    requires Printable(d) && Fine(Bare(d), false)
    ensures var tokens := TokensOf(d) + [Token(Done, "")];
            var read := Tokens(Parsed(Printed(false, tokens)));
            read == TokensOf(Bare(d)) + [Token(Done, "")] && (read == tokens <==> d == Bare(d))
  {
    hide *;
    BareTokens(d);
    PrintedDoc(d, [Token(Done, "")]);
    DoneIsPrinted();
    assert Shown(Bare(d)) + "" == Shown(Bare(d));
    DocIsRead(Bare(d));
    EventTokens(Bare(d), 1, 1);
    EventBehind(EventsOf(Bare(d), 1, 1), Event(Token(Done, ""), 1 + Breaks(Shown(Bare(d)))));
  }

  lemma EventBehind(es: seq<Event>, e: Event)
    ensures Tokens(es + [e]) == Tokens(es) + [e.token]
  {
  }

  lemma DoneIsPrinted()
    ensures Printed(false, [Token(Done, "")]) == ""
  {
  }

  /** The builder, driven over a token stream. */
  method Print(tokens: seq<Token>) returns (text: string)
    ensures text == Printed(false, tokens)
  {
    hide Written, Due;
    var b := new Builder();
    var i := 0;
    while i < |tokens|
      invariant i <= |tokens|
      invariant b.stream + Printed(b.flush, tokens[i..]) == Printed(false, tokens)
    {
      assert tokens[i..] == [tokens[i]] + tokens[i + 1..];
      Assoc(b.stream, Written(b.flush, tokens[i]), Printed(Due(b.flush, tokens[i]), tokens[i + 1..]));
      b.ProcessToken(tokens[i].kind, tokens[i].value);
      i := i + 1;
    }
    text := b.stream;
  }

  /** The builder's output, given to the parser. */
  method PrintAndParse(tokens: seq<Token>) returns (events: seq<Event>)
    ensures forall d | Printable(d) && Fine(Bare(d), false) && tokens == TokensOf(d) + [Token(Done, "")] ::
              Tokens(events) == TokensOf(Bare(d)) + [Token(Done, "")] && (Tokens(events) == tokens <==> d == Bare(d))
  {
    var text := Print(tokens);
    var p := new Parser();
    p.Process(text);
    events := p.events;
    assert events == Parsed(text);
    forall d | Printable(d) && Fine(Bare(d), false) && tokens == TokensOf(d) + [Token(Done, "")]
      ensures Tokens(events) == TokensOf(Bare(d)) + [Token(Done, "")] && (Tokens(events) == tokens <==> d == Bare(d))
    {
      hide *;
      RoundTrip(d);
    }
  }
}
