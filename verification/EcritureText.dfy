/** The texts of the markup language: what they are made of, and what they are to be read as. */
module EcritureText {
  import opened Ecriture
  import opened Sequences
  import Chars

  /** An option, or an attribute and its value, and the white space behind it. */
  datatype Opt = Plain(text: string, gap: string) | Attr(name: string, value: string, gap: string)

  /** A document: a text, a comment, a literal or a tag, and what comes behind it. */
  datatype Doc =
    | End
    | Prose(text: string, rest: Doc)
    | Note(text: string, rest: Doc)
    | Quote(text: string, rest: Doc)
    | Element(name: string, options: seq<Opt>, body: Doc, rest: Doc)

  /** How a text breaks off behind a document: not at all, in a comment, in a literal, behind
      the name of a tag and some options, or in the body of a tag. */
  datatype Cut =
    | Whole
    | NoteCut(text: string)
    | QuoteCut(text: string)
    | HeadCut(name: string, options: seq<Opt>, last: OptCut)
    | BodyCut(name: string, options: seq<Opt>, body: Doc, cut: Cut)

  /** How the options of a tag break off: behind one of them, or in one, or in an attribute's value. */
  datatype OptCut = Missing | NameCut(text: string) | ValueCut(name: string, text: string)

  // ----- its tokens, and its text

  function OptTokens(o: Opt): seq<Token> {
    match o
    case Plain(t, _) => [Token(Option, t)]
    case Attr(n, v, _) => [Token(AttrName, n), Token(AttrValue, v)]
  }

  function OptsTokens(os: seq<Opt>): seq<Token> {
    if os == [] then [] else OptTokens(os[0]) + OptsTokens(os[1..])
  }

  function TokensOf(d: Doc): seq<Token> {
    match d
    case End => []
    case Prose(t, rest) => [Token(Value, t)] + TokensOf(rest)
    case Note(t, rest) => [Token(Comment, t)] + TokensOf(rest)
    case Quote(t, rest) => [Token(Literal, t)] + TokensOf(rest)
    case Element(n, os, body, rest) =>
      [Token(TagStart, n)] + OptsTokens(os) + TokensOf(body) + [Token(TagEnd, "")] + TokensOf(rest)
  }

  function Bracket(o: Opt): string {
    match o
    case Plain(t, _) => "[" + t + "]"
    case Attr(n, v, _) => "[" + n + "=" + v + "]"
  }

  function OptShown(o: Opt): string {
    Bracket(o) + o.gap
  }

  function OptsShown(os: seq<Opt>): string {
    if os == [] then "" else OptShown(os[0]) + OptsShown(os[1..])
  }

  function Shown(d: Doc): string {
    match d
    case End => ""
    case Prose(t, rest) => t + Shown(rest)
    case Note(t, rest) => "/*" + t + "*/" + Shown(rest)
    case Quote(t, rest) => "`" + t + "`" + Shown(rest)
    case Element(n, os, body, rest) => "." + n + OptsShown(os) + "{" + Shown(body) + "}" + Shown(rest)
  }

  function OptCutShown(c: OptCut): string {
    match c
    case Missing => ""
    case NameCut(t) => "[" + t
    case ValueCut(n, t) => "[" + (n + ("=" + t))
  }

  function CutShown(c: Cut): string {
    match c
    case Whole => ""
    case NoteCut(t) => "/*" + t
    case QuoteCut(t) => "`" + t
    case HeadCut(n, os, last) => "." + n + (OptsShown(os) + OptCutShown(last))
    case BodyCut(n, os, body, cut) => "." + n + (OptsShown(os) + ("{" + (Shown(body) + CutShown(cut))))
  }

  // ----- its events, with their lines

  function Breaks(t: string): nat {
    multiset(t)['\n']
  }

  function OptEvents(o: Opt, line: nat): seq<Event> {
    match o
    case Plain(t, _) => [Event(Token(Option, t), line)]
    case Attr(n, v, _) => [Event(Token(AttrName, n), line)] + [Event(Token(AttrValue, v), line + Breaks(n))]
  }

  function OptsEvents(os: seq<Opt>, line: nat): seq<Event> {
    if os == [] then [] else OptEvents(os[0], line) + OptsEvents(os[1..], line + Breaks(OptShown(os[0])))
  }

  /** A name that is all white space is none. */
  function NameEvents(n: string, line: nat): seq<Event> {
    if Blank(n) then [] else [Event(Token(TagStart, Chars.Trim(n)), line)]
  }

  /** The events of a document that begins in a line, inside of something that began in the
      line `outer`. A text has that line; everything else has the line in which it begins
      itself, and the end of a tag that of the tag. */
  function EventsOf(d: Doc, line: nat, outer: nat): seq<Event> {
    match d
    case End => []
    case Prose(t, rest) => [Event(Token(Value, t), outer)] + EventsOf(rest, line + Breaks(t), outer)
    case Note(t, rest) => [Event(Token(Comment, t), line)] + EventsOf(rest, line + Breaks(t), outer)
    case Quote(t, rest) => [Event(Token(Literal, t), line)] + EventsOf(rest, line + Breaks(t), outer)
    case Element(n, os, body, rest) =>
      var first := line + Breaks(n) + Breaks(OptsShown(os));
      NameEvents(n, line) + OptsEvents(os, line + Breaks(n))
      + (EventsOf(body, first, first) + [Event(Token(TagEnd, ""), line)])
      + EventsOf(rest, first + Breaks(Shown(body)), outer)
  }

  function OptCutEvents(c: OptCut, line: nat): seq<Event> {
    if c.ValueCut? then [Event(Token(AttrName, c.name), line)] else []
  }

  /** What breaks off gives no token, but for the tags it is in. */
  function CutEvents(c: Cut, line: nat, outer: nat): seq<Event> {
    match c
    case Whole => []
    case NoteCut(t) => []
    case QuoteCut(t) => []
    case HeadCut(n, os, last) =>
      NameEvents(n, line) + OptsEvents(os, line + Breaks(n))
      + OptCutEvents(last, line + Breaks(n) + Breaks(OptsShown(os)))
    case BodyCut(n, os, body, cut) =>
      var first := line + Breaks(n) + Breaks(OptsShown(os));
      NameEvents(n, line) + OptsEvents(os, line + Breaks(n))
      + (EventsOf(body, first, first) + CutEvents(cut, first + Breaks(Shown(body)), first)
         + [Event(Token(TagEnd, ""), line)])
  }

  // ----- what the text of a document may contain

  /** Read from its start, the text neither begins anything else nor ends the tag around it. */
  predicate Quiet(t: string, inTag: bool) {
    forall k | 0 <= k < |t| ::
      && t[k] != '`' && !(t[k] == '.' && IsTagAt(t, k + 1))
      && !(t[k] == '/' && k + 1 < |t| && t[k + 1] == '*') && !(inTag && t[k] == '}')
  }

  predicate NoCommentEnd(t: string) {
    forall k | 0 <= k && k + 1 < |t| :: !(t[k] == '*' && t[k + 1] == '/')
  }

  /** Backticks come in pairs only. */
  predicate Paired(t: string) {
    if t == "" then true
    else if t[0] == '`' then |t| > 1 && t[1] == '`' && Paired(t[2..])
    else Paired(t[1..])
  }

  predicate IsName(n: string) {
    n != "" && !Chars.IsSpace(n[0]) && !Chars.IsSpace(n[|n| - 1]) && forall c | c in n :: InName(c)
  }

  predicate Blank(t: string) {
    forall c | c in t :: Chars.IsSpace(c)
  }

  predicate Named(n: string) {
    forall c | c in n :: InName(c)
  }

  /** Every closing character has a backtick before it. */
  predicate Open(t: string, equals: bool) {
    forall k | 0 <= k < |t| && (t[k] == ']' || (equals && t[k] == '=')) :: k > 0 && t[k - 1] == '`'
  }

  /** None can sneak in at the end either. */
  predicate Guarded(t: string, equals: bool) {
    Open(t, equals) && (t != "" ==> t[|t| - 1] != '`')
  }

  predicate FineOpt(o: Opt) {
    && Blank(o.gap)
    && match o
       case Plain(t, _) => Guarded(t, true)
       case Attr(n, v, _) => Guarded(n, true) && Guarded(v, false)
  }

  /** How many options have white space behind them. */
  function Gaps(os: seq<Opt>): nat {
    if os == [] then 0 else (if os[0].gap == "" then 0 else 1) + Gaps(os[1..])
  }

  /** White space in place of the name, or behind an option, is there once at most. */
  predicate Spare(n: string, os: seq<Opt>) {
    (if n != "" && Blank(n) then 1 else 0) + Gaps(os) <= 1
  }

  predicate FineHead(n: string, os: seq<Opt>) {
    Named(n) && (forall o | o in os :: FineOpt(o)) && Spare(n, os)
  }

  predicate Fine(d: Doc, inTag: bool) {
    match d
    case End => true
    case Prose(t, rest) => t != "" && Quiet(t, inTag) && !rest.Prose? && Fine(rest, inTag)
    case Note(t, rest) => NoCommentEnd(t) && Fine(rest, inTag)
    case Quote(t, rest) => Paired(t) && !rest.Quote? && Fine(rest, inTag)
    case Element(n, os, body, rest) =>
      FineHead(n, os) && Fine(body, true) && Fine(rest, inTag)
  }

  /** A literal at the end of a document does not go on behind it. */
  predicate Follows(d: Doc, post: string) {
    match d
    case End => true
    case Prose(t, rest) => Follows(rest, post)
    case Note(t, rest) => Follows(rest, post)
    case Quote(t, rest) => if rest == End then post == "" || post[0] != '`' else Follows(rest, post)
    case Element(n, os, body, rest) => Follows(rest, post)
  }

  predicate FineOptCut(c: OptCut) {
    match c
    case Missing => true
    case NameCut(t) => Open(t, true)
    case ValueCut(n, t) => Guarded(n, true) && Open(t, false)
  }

  predicate FineCut(c: Cut) {
    match c
    case Whole => true
    case NoteCut(t) => NoCommentEnd(t)
    case QuoteCut(t) => Paired(t)
    case HeadCut(n, os, last) => FineHead(n, os) && FineOptCut(last) && (last.Missing? ==> os != [])
    case BodyCut(n, os, body, cut) =>
      FineHead(n, os) && Fine(body, true) && Follows(body, CutShown(cut)) && FineCut(cut)
  }

  /** There is no white space around names and options. */
  predicate Printable(d: Doc) {
    match d
    case End => true
    case Prose(t, rest) => Printable(rest)
    case Note(t, rest) => Printable(rest)
    case Quote(t, rest) => Printable(rest)
    case Element(n, os, body, rest) =>
      IsName(n) && (forall o | o in os :: o.gap == "") && Printable(body) && Printable(rest)
  }

  /** The document without its literals. */
  function Bare(d: Doc): Doc {
    match d
    case End => End
    case Prose(t, rest) => Prose(t, Bare(rest))
    case Note(t, rest) => Note(t, Bare(rest))
    case Quote(t, rest) => Bare(rest)
    case Element(n, os, body, rest) => Element(n, os, Bare(body), Bare(rest))
  }

  // ----- one step of each

  lemma OptsCons(os: seq<Opt>)
    requires os != []
    ensures OptsTokens(os) == OptTokens(os[0]) + OptsTokens(os[1..])
            && OptsShown(os) == OptShown(os[0]) + OptsShown(os[1..])
  {
  }

  lemma NoOpts()
    ensures OptsShown([]) == "" && OptsTokens([]) == [] && forall line: nat :: OptsEvents([], line) == []
  {
  }

  lemma ElementShown(n: string, os: seq<Opt>, body: Doc, rest: Doc, post: string)
    ensures Shown(Element(n, os, body, rest)) + post ==
            "." + n + (OptsShown(os) + ("{" + (Shown(body) + ("}" + (Shown(rest) + post)))))
  {
    var a, b, c, d := "." + n, OptsShown(os), Shown(body), Shown(rest);
    assert Shown(Element(n, os, body, rest)) == a + b + "{" + c + "}" + d;
    hide *;
    Assoc(a + b + "{" + c + "}", d, post);
    Assoc(a + b + "{" + c, "}", d + post);
    Assoc(a + b + "{", c, "}" + (d + post));
    Assoc(a + b, "{", c + ("}" + (d + post)));
    Assoc(a, b, "{" + (c + ("}" + (d + post))));
  }

  lemma EndEvents(line: nat, outer: nat)
    ensures EventsOf(End, line, outer) == []
  {
  }

  /** What EventsOf gives for a document other than End. */
  lemma EventsStep(d: Doc, line: nat, outer: nat)
    ensures d.Prose? ==>
            EventsOf(d, line, outer) ==
            [Event(Token(Value, d.text), outer)] + EventsOf(d.rest, line + Breaks(d.text), outer)
    ensures d.Note? ==>
            EventsOf(d, line, outer) == [Event(Token(Comment, d.text), line)]
            + EventsOf(d.rest, line + Breaks(d.text), outer)
    ensures d.Quote? ==>
            EventsOf(d, line, outer) == [Event(Token(Literal, d.text), line)]
            + EventsOf(d.rest, line + Breaks(d.text), outer)
    ensures d.Element? ==>
            var first := line + Breaks(d.name) + Breaks(OptsShown(d.options));
            EventsOf(d, line, outer) ==
            NameEvents(d.name, line) + OptsEvents(d.options, line + Breaks(d.name))
            + (EventsOf(d.body, first, first) + [Event(Token(TagEnd, ""), line)])
            + EventsOf(d.rest, first + Breaks(Shown(d.body)), outer)
  {
    hide NameEvents, Breaks, OptsShown, OptsEvents, Shown;
  }
}
