/** The parser reads the text of every document, whole or broken off, as its events. */
module EcritureReading {
  import opened Ecriture
  import opened EcritureText
  import opened Positions
  import opened Sequences
  import opened Slices
  import opened StringReader
  import Chars

  // ----- the parser reads it back

  lemma LineBehind(s: string, i: nat, x: string, y: string)
    requires Rest(s, i, x + y)
    ensures i + |x| <= |s| && LineAt(s, i + |x|) == LineAt(s, i) + Breaks(x)
  {
    Behind(s, i, x, y);
    assert s[..i + |x|] == s[..i] + s[i..i + |x|];
  }

  /** A character that is no line feed does not end a line. */
  lemma SameLine(s: string, i: nat)
    requires i < |s| && s[i] != '\n'
    ensures LineAt(s, i + 1) == LineAt(s, i)
  {
    hide LineAt;
    assert s[..i + 1] == s[..i] + [s[i]];
  }

  /** Past one character that does not end the line. */
  lemma CharRead(s: string, i: nat, c: char, x: string)
    requires Rest(s, i, [c] + x) && c != '\n'
    ensures i < |s| && s[i] == c && Rest(s, i + 1, x) && LineAt(s, i + 1) == LineAt(s, i)
  {
    hide *;
    Behind(s, i, [c], x);
    SameLine(s, i);
  }

  lemma TextRead(s: string, i: nat, x: string, y: string)
    requires Rest(s, i, x + y)
    ensures i + |x| <= |s| && Rest(s, i + |x|, y) && LineAt(s, i + |x|) == LineAt(s, i) + Breaks(x)
  {
    hide *;
    Behind(s, i, x, y);
    LineBehind(s, i, x, y);
  }

  /** Past x and one more character. */
  lemma CharPasses(s: string, k: nat, x: string, c: char, tail: string)
    requires Rest(s, k, x + ([c] + tail)) && c != '\n'
    ensures k + |x| + 1 <= |s| && s[k + |x|] == c && Rest(s, k + |x| + 1, tail)
    ensures LineAt(s, k + |x|) == LineAt(s, k + |x| + 1) == LineAt(s, k) + Breaks(x)
  {
    hide *;
    LineBehind(s, k, x, [c] + tail);
    Behind(s, k, x, [c] + tail);
    Behind(s, k + |x|, [c], tail);
    SameLine(s, k + |x|);
  }

  lemma BreaksJoin(a: string, b: string)
    ensures Breaks(a + b) == Breaks(a) + Breaks(b)
  {
  }

  lemma {:induction false} CloseFinds(s: string, i: nat, k: nat, t: string, equals: bool, post: string)
    requires Rest(s, i, t + post) && Guarded(t, equals) && k <= |t|
    requires post != "" && (post[0] == ']' || (equals && post[0] == '='))
    ensures i + |t| < |s| && Close(s, i, i + k, equals) == i + |t| && s[i..i + |t|] == t
    ensures s[i + |t|] == post[0] && Rest(s, i + |t|, post)
    decreases |t| - k
  {
    Behind(s, i, t, post);
    if k < |t| {
      CloseFinds(s, i, k + 1, t, equals, post);
    }
  }

  lemma OptText(o: Opt, post: string)
    ensures o.Plain? ==> OptShown(o) + post == "[" + (o.text + ("]" + (o.gap + post)))
    ensures o.Attr? ==> OptShown(o) + post == "[" + (o.name + ("=" + (o.value + ("]" + (o.gap + post)))))
  {
    Assoc(Bracket(o), o.gap, post);
    var tail := o.gap + post;
    match o
    case Plain(t, _) =>
      hide OptShown;
      Assoc("[" + t, "]", tail);
      Assoc("[", t, "]" + tail);
    case Attr(n, v, _) =>
      assert Bracket(o) == "[" + n + "=" + v + "]";
      hide *;
      Assoc("[" + n + "=" + v, "]", tail);
      Assoc("[" + n + "=", v, "]" + tail);
      Assoc("[" + n, "=", v + ("]" + tail));
      Assoc("[", n, "=" + (v + ("]" + tail)));
  }

  /** A guarded text up to the character that closes it. */
  lemma ClosedText(s: string, i: nat, t: string, equals: bool, c: char, post: string)
    requires Rest(s, i, t + ([c] + post)) && Guarded(t, equals) && (c == ']' || (equals && c == '='))
    ensures i + |t| < |s| && Close(s, i, i, equals) == i + |t| && s[i..i + |t|] == t && s[i + |t|] == c
    ensures Rest(s, i + |t| + 1, post) && LineAt(s, i + |t| + 1) == LineAt(s, i) + Breaks(t)
  {
    hide *;
    CharPasses(s, i, t, c, post);
    CloseFinds(s, i, 0, t, equals, [c] + post);
  }

  lemma AttrValueIs(s: string, i: nat, v: string)
    requires i + |v| < |s| && Close(s, i, i, false) == i + |v| && s[i..i + |v|] == v
    ensures AttrValueOut(s, i) == Out([Event(Token(AttrValue, v), LineAt(s, i))], i + |v| + 1)
  {
    hide Close, LineAt;
  }

  lemma ValueParses(s: string, i: nat, v: string, post: string)
    requires Rest(s, i, v + ("]" + post)) && Guarded(v, false)
    ensures i <= |s| && AttrValueOut(s, i) == Out([Event(Token(AttrValue, v), LineAt(s, i))], i + |v| + 1)
    ensures Rest(s, i + |v| + 1, post)
  {
    hide *;
    ClosedText(s, i, v, false, ']', post);
    AttrValueIs(s, i, v);
  }

  lemma PlainParses(s: string, i: nat, t: string, post: string)
    requires Rest(s, i, "[" + (t + ("]" + post))) && Guarded(t, true)
    ensures i < |s| && s[i] == '[' && Rest(s, i + |t| + 2, post)
    ensures OptionOut(s, i + 1) == Out([Event(Token(Option, t), LineAt(s, i))], i + |t| + 2)
  {
    hide *;
    CharRead(s, i, '[', t + ("]" + post));
    ClosedText(s, i + 1, t, true, ']', post);
    OptionAt(s, i + 1, i + 1 + |t|);
  }

  lemma AttrNameParses(s: string, i: nat, n: string, x: string)
    requires Rest(s, i, "[" + (n + ("=" + x))) && Guarded(n, true)
    ensures i + |n| + 2 <= |s| && s[i] == '[' && Rest(s, i + |n| + 2, x)
    ensures LineAt(s, i + |n| + 2) == LineAt(s, i) + Breaks(n)
    ensures var a := AttrValueOut(s, i + |n| + 2);
            OptionOut(s, i + 1) == Out([Event(Token(AttrName, n), LineAt(s, i))] + a.events, a.next)
  {
    hide *;
    Behind(s, i, "[", n + ("=" + x));
    SameLine(s, i);
    ClosedText(s, i + 1, n, true, '=', x);
    OptionAt(s, i + 1, i + 1 + |n|);
  }

  lemma AttrParses(s: string, i: nat, n: string, v: string, post: string)
    requires Rest(s, i, "[" + (n + ("=" + (v + ("]" + post))))) && Guarded(n, true) && Guarded(v, false)
    ensures i < |s| && s[i] == '[' && Rest(s, i + |n| + |v| + 3, post)
    ensures var line := LineAt(s, i);
            OptionOut(s, i + 1) ==
            Out([Event(Token(AttrName, n), line)] + [Event(Token(AttrValue, v), line + Breaks(n))], i + |n| + |v| + 3)
  {
    hide *;
    AttrNameParses(s, i, n, v + ("]" + post));
    ValueParses(s, i + |n| + 2, v, post);
  }

  lemma OptionParses(s: string, i: nat, o: Opt, post: string)
    requires Rest(s, i, OptShown(o) + post) && FineOpt(o)
    ensures i < |s| && s[i] == '[' && i + |Bracket(o)| <= |s| && Rest(s, i + |Bracket(o)|, o.gap + post)
    ensures OptionOut(s, i + 1) == Out(OptEvents(o, LineAt(s, i)), i + |Bracket(o)|)
  {
    hide *;
    Behind(s, i, OptShown(o), post);
    OptText(o, post);
    OptParts(o, LineAt(s, i));
    match o
    case Plain(t, _) => PlainParses(s, i, t, o.gap + post);
    case Attr(n, v, _) => AttrParses(s, i, n, v, o.gap + post);
  }

  lemma OptParts(o: Opt, line: nat)
    requires FineOpt(o)
    ensures Blank(o.gap) && |OptShown(o)| == |Bracket(o)| + |o.gap|
    ensures o.Plain? ==> Guarded(o.text, true) && OptEvents(o, line) == [Event(Token(Option, o.text), line)]
    ensures o.Plain? ==> |Bracket(o)| == |o.text| + 2
    ensures o.Attr? ==> Guarded(o.name, true) && Guarded(o.value, false) && |Bracket(o)| == |o.name| + |o.value| + 3
    ensures o.Attr? ==>
            OptEvents(o, line) ==
            [Event(Token(AttrName, o.name), line)] + [Event(Token(AttrValue, o.value), line + Breaks(o.name))]
  {
    hide Guarded, Blank, Breaks;
  }

  lemma CommentChar(s: string, i: nat, k: nat, t: string, post: string)
    requires Rest(s, i, t + ("*/" + post)) && NoCommentEnd(t) && k < |t|
    ensures i + k + 1 < |s| && !(s[i + k] == '*' && s[i + k + 1] == '/')
  {
    Behind(s, i, t, "*/" + post);
    hide Rest;
  }

  lemma CommentTail(s: string, i: nat, t: string, post: string)
    requires Rest(s, i, t + ("*/" + post))
    ensures i + |t| + 2 <= |s| && s[i + |t|] == '*' && s[i + |t| + 1] == '/'
    ensures s[i..i + |t|] == t && Rest(s, i + |t| + 2, post)
  {
    hide *;
    Behind(s, i, t, "*/" + post);
    Behind(s, i + |t|, "*/", post);
  }

  lemma {:induction false} CommentFinds(s: string, i: nat, k: nat, t: string, post: string)
    requires Rest(s, i, t + ("*/" + post)) && NoCommentEnd(t) && k <= |t|
    ensures i + |t| + 2 <= |s| && CommentEnd(s, i + k) == i + |t| && s[i..i + |t|] == t && Rest(s, i + |t| + 2, post)
    decreases |t| - k
  {
    hide *;
    CommentTail(s, i, t, post);
    CommentStep(s, i + k);
    if k < |t| {
      CommentChar(s, i, k, t, post);
      CommentFinds(s, i, k + 1, t, post);
    }
  }

  // ----- names

  lemma {:induction false} NameIsTag(s: string, i: nat, k: nat, n: string, post: string)
    requires Rest(s, i, n + post) && k <= |n| && Named(n)
    requires post != "" && (post[0] == '[' || post[0] == '{')
    ensures i + k <= |s| && IsTagAt(s, i + k)
    decreases |n| - k
  {
    Behind(s, i, n, post);
    if k < |n| {
      NameIsTag(s, i, k + 1, n, post);
      assert n[k] in n;
    }
  }

  /** The name collected so far, and n more characters from position `at` on. */
  function Padded(name: Slice, at: nat, n: nat): (r: Slice)
    ensures Before(name, at) ==> Before(r, at + n)
  {
    if n == 0 then name else if name.len == 0 then Slice(at, n) else Slice(name.start, name.len + n)
  }

  lemma {:induction false} PadsName(s: string, i: nat, n: nat, name: Slice, line: nat)
    requires i + n <= |s| && Before(name, i) && (forall k | i <= k < i + n :: s[k] != '[' && s[k] != '{')
    ensures TagOut(s, i, name, line) == TagOut(s, i + n, Padded(name, i, n), line)
    decreases n
  {
    hide TagOut, BodyOut, OptionOut, NameEvent;
    if n > 0 {
      TagStep(s, i, name, line);
      PadsName(s, i + 1, n - 1, Grown(name, i), line);
    }
  }

  lemma NoBracket(t: string)
    requires Named(t) || Blank(t)
    ensures forall c | c in t :: c != '[' && c != '{'
  {
  }

  /** Behind name characters or white space. */
  lemma PadsText(s: string, i: nat, t: string, post: string, name: Slice, line: nat)
    requires Rest(s, i, t + post) && Before(name, i) && (Named(t) || Blank(t))
    ensures i + |t| <= |s| && s[i..i + |t|] == t
    ensures TagOut(s, i, name, line) == TagOut(s, i + |t|, Padded(name, i, |t|), line)
  {
    hide *;
    Behind(s, i, t, post);
    NoBracket(t);
    forall k | i <= k < i + |t|
      ensures s[k] != '[' && s[k] != '{'
    {
      assert s[k] == t[k - i] && t[k - i] in t;
    }
    PadsName(s, i, |t|, name, line);
  }

  lemma BlankIsTrimmed(t: string)
    ensures Blank(t) <==> Chars.Trim(t) == ""
  {
    hide Chars.IsSpace, Chars.TrimLeft, Chars.TrimRight;
    Chars.TrimmedAway(t);
  }

  lemma NameTaken(s: string, name: Slice, n: string, line: nat)
    requires Before(name, |s|) && Text(s, name) == n
    ensures NameEvent(s, name, line) == NameEvents(n, line)
  {
    hide Blank, Text, Chars.Trim;
    BlankIsTrimmed(n);
  }

  /** The name of a tag that begins at i. */
  lemma FirstName(s: string, i: nat, n: string, line: nat)
    requires i + |n| <= |s| && s[i..i + |n|] == n
    ensures NameEvent(s, Padded(Slice(0, 0), i, |n|), line) == NameEvents(n, line)
    ensures Waiting(s, Padded(Slice(0, 0), i, |n|), line) == if n != "" && Blank(n) then 1 else 0
  {
    hide NameEvent, NameEvents, Blank;
    NameTaken(s, Padded(Slice(0, 0), i, |n|), n, line);
    EventOrBlank(n, line);
  }

  lemma EventOrBlank(n: string, line: nat)
    ensures Blank(n) <==> NameEvents(n, line) == []
    ensures !Blank(n) ==> |NameEvents(n, line)| == 1
  {
  }

  // ----- options

  /** Whether a name of white space is kept. */
  function Waiting(s: string, name: Slice, line: nat): nat
    requires Before(name, |s|)
  {
    if NameEvent(s, name, line) == [] && name.len > 0 then 1 else 0
  }

  /** What is left of a name once it has been handed out. */
  function Kept(s: string, name: Slice, line: nat): Slice
    requires Before(name, |s|)
  {
    if NameEvent(s, name, line) == [] then name else Slice(0, 0)
  }

  lemma KeptIs(s: string, k: nat, name: Slice, line: nat)
    requires Before(name, k) && k < |s| && s[k] == '['
    ensures Before(name, |s|) && Before(Kept(s, name, line), k)
    ensures var o := OptionOut(s, k + 1);
            k <= o.next && Before(Kept(s, name, line), o.next) &&
            var t := TagOut(s, o.next, Kept(s, name, line), line);
            TagOut(s, k, name, line) == Out(NameEvent(s, name, line) + o.events + t.events, t.next)
  {
    hide TagOut, OptionOut, BodyOut, NameEvent;
    TagStep(s, k, name, line);
  }

  lemma NextIs(s: string, name: Slice, line: nat, k: nat, o: Opt)
    requires Before(name, k) && k <= |s|
    ensures Before(name, |s|) && Before(Kept(s, name, line), k + |Bracket(o)|)
    ensures NextName(s, name, line, k, o) == Padded(Kept(s, name, line), k + |Bracket(o)|, |o.gap|)
  {
    hide NameEvent, Bracket, Padded;
  }

  /** What is collected behind an option. */
  function NextName(s: string, name: Slice, line: nat, k: nat, o: Opt): (r: Slice)
    requires Before(name, k) && k <= |s|
    ensures Before(r, k + |OptShown(o)|)
  {
    Padded(Kept(s, name, line), k + |Bracket(o)|, |o.gap|)
  }

  lemma OptionStep(s: string, k: nat, name: Slice, o: Opt, post: string, line: nat)
    requires Rest(s, k, OptShown(o) + post) && FineOpt(o) && Before(name, k)
    ensures k + |OptShown(o)| <= |s| && Rest(s, k + |OptShown(o)|, post) && s[k] == '['
    ensures LineAt(s, k + |OptShown(o)|) == LineAt(s, k) + Breaks(OptShown(o))
    ensures s[k + |Bracket(o)|..k + |OptShown(o)|] == o.gap
    ensures var next := NextName(s, name, line, k, o);
            var t := TagOut(s, k + |OptShown(o)|, next, line);
            TagOut(s, k, name, line) ==
            Out(NameEvent(s, name, line) + OptEvents(o, LineAt(s, k)) + t.events, t.next)
  {
    hide *;
    Behind(s, k, OptShown(o), post);
    OptParts(o, LineAt(s, k));
    OptionParses(s, k, o, post);
    LineBehind(s, k, OptShown(o), post);
    StillBefore(name, k, |s|);
    NextIs(s, name, line, k, o);
    PadsText(s, k + |Bracket(o)|, o.gap, post, Kept(s, name, line), line);
    KeptIs(s, k, name, line);
  }

  lemma StillBefore(name: Slice, i: nat, j: nat)
    requires Before(name, i) && i <= j
    ensures Before(name, j)
  {
  }

  lemma NoNameTaken(s: string, line: nat)
    ensures NameEvent(s, Slice(0, 0), line) == []
  {
  }

  /** White space behind an option is no name, if none was waiting. */
  lemma GapIsNoName(s: string, k: nat, name: Slice, o: Opt, line: nat)
    requires Before(name, k) && k + |OptShown(o)| <= |s| && s[k + |Bracket(o)|..k + |OptShown(o)|] == o.gap
             && Blank(o.gap)
    requires Waiting(s, name, line) == 0 || o.gap == ""
    ensures var next := NextName(s, name, line, k, o);
            && NameEvent(s, next, line) == []
            && Waiting(s, next, line) == Waiting(s, name, line) + if o.gap == "" then 0 else 1
  {
    hide NameEvent, NameEvents, Blank, Bracket;
    NoNameTaken(s, line);
    if o.gap != "" {
      NameTaken(s, Slice(k + |Bracket(o)|, |o.gap|), o.gap, line);
      EventOrBlank(o.gap, line);
    }
  }

  /** From k on a tag is read as fin says, unless it has a name to hand out. */
  ghost predicate Finishes(s: string, k: nat, line: nat, fin: Out) {
    && k <= |s|
    && forall name: Slice | Before(name, k) && NameEvent(s, name, line) == [] :: TagOut(s, k, name, line) == fin
  }

  lemma FinishesIs(s: string, k: nat, line: nat, fin: Out, name: Slice)
    requires Finishes(s, k, line, fin) && Before(name, k) && NameEvent(s, name, line) == []
    ensures TagOut(s, k, name, line) == fin
  {
  }

  /** The options of a tag, of which one has white space behind it at most. */
  lemma {:induction false} OptsParse(s: string, k: nat, name: Slice, os: seq<Opt>, tail: string, line: nat, fin: Out)
    requires Rest(s, k, OptsShown(os) + tail) && Before(name, k) && Before(name, |s|) && k <= |s|
    requires forall o | o in os :: FineOpt(o)
    requires Finishes(s, k + |OptsShown(os)|, line, fin) && Waiting(s, name, line) + Gaps(os) <= 1
    requires os == [] ==> TagOut(s, k, name, line) == Out(NameEvent(s, name, line) + fin.events, fin.next)
    ensures TagOut(s, k, name, line) ==
            Out(NameEvent(s, name, line) + OptsEvents(os, LineAt(s, k)) + fin.events, fin.next)
    decreases |os|
  {
    hide *;
    if os == [] {
      NoOpts();
      assert NameEvent(s, name, line) + [] == NameEvent(s, name, line);
    } else {
      OptsCons(os);
      GapsCons(os);
      var o, next, k' := os[0], NextName(s, name, line, k, os[0]), k + |OptShown(os[0])|;
      Assoc(OptShown(o), OptsShown(os[1..]), tail);
      OptionStep(s, k, name, o, OptsShown(os[1..]) + tail, line);
      StillBefore(next, k', |s|);
      GapIsNoName(s, k, name, o, line);
      if os[1..] == [] {
        NoOpts();
        FinishesIs(s, k', line, fin, next);
        assert [] + fin.events == fin.events;
      }
      OptsParse(s, k', next, os[1..], tail, line, fin);
      OptsEventsCons(os, LineAt(s, k));
      OptionThenRest(NameEvent(s, name, line), OptEvents(o, LineAt(s, k)), OptsEvents(os[1..], LineAt(s, k')),
                     fin.events);
    }
  }

  lemma GapsCons(os: seq<Opt>)
    requires os != [] && forall o | o in os :: FineOpt(o)
    ensures Gaps(os) == (if os[0].gap == "" then 0 else 1) + Gaps(os[1..])
    ensures FineOpt(os[0]) && Blank(os[0].gap) && forall o | o in os[1..] :: FineOpt(o)
  {
    hide Blank, Guarded;
  }

  lemma OptsEventsCons(os: seq<Opt>, line: nat)
    requires os != []
    ensures OptsEvents(os, line) == OptEvents(os[0], line) + OptsEvents(os[1..], line + Breaks(OptShown(os[0])))
  {
  }

  lemma OptionThenRest(e: seq<Event>, o: seq<Event>, os: seq<Event>, end: seq<Event>)
    ensures e + o + ([] + os + end) == e + (o + os) + end
  {
  }

  // ----- text

  /** The body of a tag, or of the document, goes on with something other than text. */
  predicate Stops(post: string) {
    post == "" || post[0] == '.' || post[0] == '/' || post[0] == '`' || post[0] == '}'
  }

  lemma {:induction false} SameAhead(s: string, i: nat, k: nat, t: string, post: string)
    requires Rest(s, i, t + post) && Stops(post) && k <= |t|
    ensures i + k <= |s| && IsTagAt(s, i + k) == IsTagAt(t, k)
    decreases |t| - k
  {
    Behind(s, i, t, post);
    if k < |t| {
      hide InName;
      SameAhead(s, i, k + 1, t, post);
    }
  }

  lemma TextChar(s: string, i: nat, k: nat, t: string, post: string, inTag: bool)
    requires Rest(s, i, t + post) && Stops(post) && k < |t| && Quiet(t, inTag)
    ensures var j := i + k;
            i + |t| <= |s| && s[j] != '`' && !(s[j] == '.' && IsTagAt(s, j + 1)) && !(inTag && s[j] == '}')
    ensures var j := i + k; !(s[j] == '/' && j + 1 < |s| && s[j + 1] == '*')
  {
    Behind(s, i, t, post);
    SameAhead(s, i, k + 1, t, post);
    hide Rest, IsTagAt;
  }

  lemma {:induction false} TextSkips(s: string, i: nat, k: nat, t: string, post: string, inTag: bool, line: nat)
    requires Rest(s, i, t + post) && Stops(post) && k <= |t| && Quiet(t, inTag)
    ensures i + |t| <= |s| && BodyOut(s, i, i + k, inTag, line) == BodyOut(s, i, i + |t|, inTag, line)
    decreases |t| - k
  {
    hide *;
    Behind(s, i, t, post);
    if k < |t| {
      TextChar(s, i, k, t, post, inTag);
      BodyElsewhere(s, i, i + k, inTag, line);
      TextSkips(s, i, k + 1, t, post, inTag, line);
    }
  }

  /** At k something other than text begins, or there is nothing more. */
  ghost predicate AtStop(s: string, k: nat, inTag: bool) {
    && k <= |s|
    && (k == |s| || s[k] == '`' || (s[k] == '.' && IsTagAt(s, k + 1)) || (inTag && s[k] == '}')
        || (k + 1 < |s| && s[k] == '/' && s[k + 1] == '*'))
  }

  lemma CommentStops(s: string, k: nat, inTag: bool)
    requires k + 1 < |s| && s[k] == '/' && s[k + 1] == '*'
    ensures AtStop(s, k, inTag)
  {
  }

  lemma TagStops(s: string, k: nat, inTag: bool)
    requires k < |s| && s[k] == '.' && IsTagAt(s, k + 1)
    ensures AtStop(s, k, inTag)
  {
  }

  lemma FlushNothing(s: string, k: nat, line: nat)
    requires k <= |s|
    ensures Flush(s, k, k, line) == []
  {
  }

  lemma LessText(f: seq<Event>, a: seq<Event>, b: seq<Event>)
    ensures f + a + b == f + ([] + a + b)
  {
  }

  /** The text before a stop is handed out first. */
  lemma FlushFirst(s: string, v: nat, k: nat, inTag: bool, line: nat)
    requires v <= k && AtStop(s, k, inTag)
    ensures var r, q := BodyOut(s, v, k, inTag, line), BodyOut(s, k, k, inTag, line);
            r.next == q.next && r.events == Flush(s, v, k, line) + q.events
  {
    hide BodyOut, FreshTag, TagOut, CommentOut, LiteralOut, IsTagAt, Flush;
    FlushNothing(s, k, line);
    var f := Flush(s, v, k, line);
    if k == |s| {
      BodyAtEnd(s, v, inTag, line);
      BodyAtEnd(s, k, inTag, line);
    } else if s[k] == '`' {
      BodyAtLiteral(s, v, k, inTag, line);
      BodyAtLiteral(s, k, k, inTag, line);
      var l := LiteralOut(s, k + 1);
      LessText(f, l.events, BodyOut(s, l.next, l.next, inTag, line).events);
    } else if s[k] == '.' && IsTagAt(s, k + 1) {
      BodyAtTag(s, v, k, inTag, line);
      BodyAtTag(s, k, k, inTag, line);
      var t := FreshTag(s, k + 1);
      LessText(f, t.events, BodyOut(s, t.next, t.next, inTag, line).events);
    } else if k + 1 < |s| && s[k] == '/' && s[k + 1] == '*' {
      BodyAtComment(s, v, k, inTag, line);
      BodyAtComment(s, k, k, inTag, line);
      var c := CommentOut(s, k + 2);
      LessText(f, c.events, BodyOut(s, c.next, c.next, inTag, line).events);
    } else {
      BodyAtBrace(s, v, k, line);
      BodyAtBrace(s, k, k, line);
    }
  }

  // ----- documents

  /** From j on the parser reads d, and then goes on behind it. */
  ghost predicate Reads(s: string, j: nat, d: Doc, inTag: bool, line: nat) {
    && j + |Shown(d)| <= |s|
    && var k := j + |Shown(d)|;
       var r := BodyOut(s, k, k, inTag, line);
       BodyOut(s, j, j, inTag, line) == Out(EventsOf(d, LineAt(s, j), line) + r.events, r.next)
  }

  lemma ReadsIs(s: string, j: nat, d: Doc, inTag: bool, line: nat)
    requires j + |Shown(d)| <= |s|
    ensures var k := j + |Shown(d)|;
            var r := BodyOut(s, k, k, inTag, line);
            Reads(s, j, d, inTag, line) <==>
            BodyOut(s, j, j, inTag, line) == Out(EventsOf(d, LineAt(s, j), line) + r.events, r.next)
  {
    hide BodyOut, EventsOf, LineAt, Shown;
  }

  lemma EndReads(s: string, j: nat, inTag: bool, line: nat)
    requires j <= |s|
    ensures Reads(s, j, End, inTag, line)
  {
    assert |Shown(End)| == 0 && EventsOf(End, LineAt(s, j), line) == [];
    NothingInFront(BodyOut(s, j, j, inTag, line).events);
    hide BodyOut, LineAt, Shown, EventsOf;
  }

  lemma StopsBehind(d: Doc, post: string)
    requires !d.Prose? && Stops(post)
    ensures Stops(Shown(d) + post)
  {
    match d
    case End => assert "" + post == post;
    case Note(t, rest) => assert (Shown(d) + post)[0] == '/';
    case Quote(t, rest) => assert (Shown(d) + post)[0] == '`';
    case Element(n, os, body, rest) => assert (Shown(d) + post)[0] == '.';
  }

  lemma ProseShown(t: string, rest: Doc, post: string)
    ensures Shown(Prose(t, rest)) + post == t + (Shown(rest) + post) && |Shown(Prose(t, rest))| == |t| + |Shown(rest)|
  {
    assert Shown(Prose(t, rest)) == t + Shown(rest);
    hide Shown;
    Assoc(t, Shown(rest), post);
  }

  lemma FlushIs(s: string, v: nat, k: nat, line: nat)
    requires v < k <= |s|
    ensures Flush(s, v, k, line) == [Event(Token(Value, s[v..k]), line)]
  {
  }

  /** Something is handed out before what is read from j on. */
  lemma ThenRest(a: seq<Event>, s: string, j: nat, rest: Doc, inTag: bool, line: nat)
    requires Reads(s, j, rest, inTag, line)
    ensures j + |Shown(rest)| <= |s|
    ensures var k := j + |Shown(rest)|;
            var r := BodyOut(s, k, k, inTag, line);
            && BodyOut(s, j, j, inTag, line).next == r.next
            && a + BodyOut(s, j, j, inTag, line).events == a + EventsOf(rest, LineAt(s, j), line) + r.events
  {
    hide BodyOut, LineAt, Shown, EventsOf;
  }

  lemma ProseReads(s: string, j: nat, t: string, rest: Doc, post: string, inTag: bool, line: nat)
    requires Rest(s, j, t + (Shown(rest) + post)) && t != "" && Quiet(t, inTag) && !rest.Prose? && Stops(post)
    requires Reads(s, j + |t|, rest, inTag, line) && AtStop(s, j + |t|, inTag)
    ensures Reads(s, j, Prose(t, rest), inTag, line)
  {
    hide *;
    ProseShown(t, rest, post);
    StopsBehind(rest, post);
    Behind(s, j, t, Shown(rest) + post);
    TextSkips(s, j, 0, t, Shown(rest) + post, inTag, line);
    FlushFirst(s, j, j + |t|, inTag, line);
    FlushIs(s, j, j + |t|, line);
    LineBehind(s, j, t, Shown(rest) + post);
    ThenRest([Event(Token(Value, t), line)], s, j + |t|, rest, inTag, line);
    EventsStep(Prose(t, rest), LineAt(s, j), line);
    ReadsIs(s, j, Prose(t, rest), inTag, line);
  }

  lemma NoteShown(t: string, rest: Doc, post: string)
    ensures Shown(Note(t, rest)) + post == "/*" + (t + ("*/" + (Shown(rest) + post)))
    ensures |Shown(Note(t, rest))| == 4 + |t| + |Shown(rest)|
  {
    assert Shown(Note(t, rest)) == "/*" + t + "*/" + Shown(rest);
    hide *;
    Assoc("/*" + t + "*/", Shown(rest), post);
    Assoc("/*" + t, "*/", Shown(rest) + post);
    Assoc("/*", t, "*/" + (Shown(rest) + post));
  }

  lemma MarkPasses(s: string, k: nat, a: char, b: char, tail: string)
    requires Rest(s, k, [a, b] + tail) && a != '\n' && b != '\n'
    ensures k + 2 <= |s| && s[k] == a && s[k + 1] == b && Rest(s, k + 2, tail) && LineAt(s, k + 2) == LineAt(s, k)
  {
    hide *;
    Behind(s, k, [a, b], tail);
    SameLine(s, k);
    SameLine(s, k + 1);
  }

  lemma NoteStarts(s: string, j: nat, t: string, tail: string, inTag: bool)
    requires Rest(s, j, "/*" + (t + ("*/" + tail))) && NoCommentEnd(t)
    ensures AtStop(s, j, inTag) && j + 1 < |s| && s[j] == '/' && s[j + 1] == '*'
    ensures CommentOut(s, j + 2) == Out([Event(Token(Comment, t), LineAt(s, j))], j + |t| + 4)
    ensures Rest(s, j + |t| + 4, tail) && LineAt(s, j + |t| + 4) == LineAt(s, j) + Breaks(t)
  {
    hide *;
    MarkPasses(s, j, '/', '*', t + ("*/" + tail));
    LineBehind(s, j + 2, t, "*/" + tail);
    Behind(s, j + 2, t, "*/" + tail);
    MarkPasses(s, j + 2 + |t|, '*', '/', tail);
    CommentStops(s, j, inTag);
    CommentFinds(s, j + 2, 0, t, tail);
    CommentAt(s, j + 2, j + 2 + |t|);
  }

  lemma NoteReads(s: string, j: nat, t: string, rest: Doc, post: string, inTag: bool, line: nat)
    requires Rest(s, j, "/*" + (t + ("*/" + (Shown(rest) + post)))) && NoCommentEnd(t)
    requires Reads(s, j + |t| + 4, rest, inTag, line)
    ensures Reads(s, j, Note(t, rest), inTag, line)
  {
    hide *;
    NoteShown(t, rest, post);
    NoteStarts(s, j, t, Shown(rest) + post, inTag);
    BodyAtComment(s, j, j, inTag, line);
    FlushNothing(s, j, line);
    NothingInFront([Event(Token(Comment, t), LineAt(s, j))]);
    ThenRest([Event(Token(Comment, t), LineAt(s, j))], s, j + |t| + 4, rest, inTag, line);
    EventsStep(Note(t, rest), LineAt(s, j), line);
    ReadsIs(s, j, Note(t, rest), inTag, line);
  }

  lemma NothingInFront(a: seq<Event>)
    ensures [] + a == a
  {
  }

  // ----- literals

  /** A literal goes on behind a character, or behind a pair of backticks. */
  lemma LiteralMore(s: string, i: nat, t: string, x: string)
    requires Rest(s, i, t + x) && Paired(t) && t != ""
    ensures var n := if t[0] == '`' then 2 else 1;
            && n <= |t| && Paired(t[n..]) && i + n <= |s| && Rest(s, i + n, t[n..] + x)
            && LiteralEnd(s, i) == LiteralEnd(s, i + n)
  {
    Behind(s, i, t, x);
    assert i < |s| && s[i] == t[0];
    LiteralStep(s, i);
    var n := if t[0] == '`' then 2 else 1;
    assert s[i + 1..] == s[i..][1..] == (t + x)[1..];
    assert |t| > 1 ==> s[i + 1] == t[1];
    assert n <= |t| ==> s[i + n..] == (t + x)[n..] == t[n..] + x;
    hide Rest, LiteralEnd;
  }

  lemma {:induction false} LiteralFinds(s: string, i: nat, t: string, post: string)
    requires Rest(s, i, t + ("`" + post)) && Paired(t) && (post == "" || post[0] != '`')
    ensures i + |t| + 1 <= |s| && LiteralEnd(s, i) == i + |t| && s[i..i + |t|] == t && Rest(s, i + |t| + 1, post)
    decreases |t|
  {
    hide *;
    Behind(s, i, t, "`" + post);
    Behind(s, i + |t|, "`", post);
    if t == "" {
      LiteralStep(s, i);
    } else {
      LiteralMore(s, i, t, "`" + post);
      var n := if t[0] == '`' then 2 else 1;
      LiteralFinds(s, i + n, t[n..], post);
    }
  }

  lemma {:induction false} NothingToPair(t: string)
    requires '`' !in t
    ensures Paired(t)
  {
    if t != "" {
      NothingToPair(t[1..]);
    }
  }

  lemma QuoteShown(t: string, rest: Doc, post: string)
    ensures Shown(Quote(t, rest)) + post == "`" + (t + ("`" + (Shown(rest) + post)))
    ensures |Shown(Quote(t, rest))| == 2 + |t| + |Shown(rest)|
  {
    assert Shown(Quote(t, rest)) == "`" + t + "`" + Shown(rest);
    hide Shown;
    Assoc("`" + t + "`", Shown(rest), post);
    Assoc("`" + t, "`", Shown(rest) + post);
    Assoc("`", t, "`" + (Shown(rest) + post));
  }

  lemma LiteralStops(s: string, k: nat, inTag: bool)
    requires k < |s| && s[k] == '`'
    ensures AtStop(s, k, inTag)
  {
  }

  lemma QuoteStarts(s: string, j: nat, t: string, tail: string, inTag: bool)
    requires Rest(s, j, "`" + (t + ("`" + tail))) && Paired(t) && (tail == "" || tail[0] != '`')
    ensures AtStop(s, j, inTag) && j < |s| && s[j] == '`'
    ensures LiteralOut(s, j + 1) == Out([Event(Token(Literal, t), LineAt(s, j))], j + |t| + 2)
    ensures Rest(s, j + |t| + 2, tail) && LineAt(s, j + |t| + 2) == LineAt(s, j) + Breaks(t)
  {
    hide *;
    Behind(s, j, "`", t + ("`" + tail));
    SameLine(s, j);
    CharPasses(s, j + 1, t, '`', tail);
    LiteralFinds(s, j + 1, t, tail);
    LiteralAt(s, j + 1, j + 1 + |t|);
    LiteralStops(s, j, inTag);
  }

  lemma QuoteReads(s: string, j: nat, t: string, rest: Doc, post: string, inTag: bool, line: nat)
    requires Rest(s, j, "`" + (t + ("`" + (Shown(rest) + post)))) && Paired(t)
    requires Shown(rest) + post == "" || (Shown(rest) + post)[0] != '`'
    requires Reads(s, j + |t| + 2, rest, inTag, line)
    ensures Reads(s, j, Quote(t, rest), inTag, line)
  {
    hide *;
    QuoteShown(t, rest, post);
    QuoteStarts(s, j, t, Shown(rest) + post, inTag);
    BodyAtLiteral(s, j, j, inTag, line);
    FlushNothing(s, j, line);
    NothingInFront([Event(Token(Literal, t), LineAt(s, j))]);
    ThenRest([Event(Token(Literal, t), LineAt(s, j))], s, j + |t| + 2, rest, inTag, line);
    EventsStep(Quote(t, rest), LineAt(s, j), line);
    ReadsIs(s, j, Quote(t, rest), inTag, line);
  }

  /** What follows a literal does not begin with a backtick. */
  lemma NoBacktick(t: string, rest: Doc, post: string, inTag: bool)
    requires Fine(rest, inTag) && !rest.Quote? && Follows(Quote(t, rest), post)
    ensures Shown(rest) + post == "" || (Shown(rest) + post)[0] != '`'
  {
    match rest
    case End => assert "" + post == post;
    case Prose(t, more) => assert (Shown(rest) + post)[0] == t[0];
    case Note(t, more) => assert (Shown(rest) + post)[0] == '/';
    case Element(n, os, body, more) => assert (Shown(rest) + post)[0] == '.';
  }

  // ----- tags

  lemma FirstOfOptions(os: seq<Opt>, tail: string)
    requires os != [] || (tail != "" && (tail[0] == '[' || tail[0] == '{'))
    ensures var x := OptsShown(os) + tail; x != "" && (x[0] == '[' || x[0] == '{')
  {
    if os == [] {
      assert OptsShown(os) + tail == tail;
    } else {
      assert OptShown(os[0])[0] == '[';
    }
  }

  /** A tag begins at j, and behind its name the options do. */
  lemma NameStarts(s: string, j: nat, n: string, x: string, inTag: bool)
    requires Rest(s, j, "." + n + x) && Named(n) && x != "" && (x[0] == '[' || x[0] == '{')
    ensures AtStop(s, j, inTag) && j + 1 + |n| <= |s| && s[j] == '.' && IsTagAt(s, j + 1)
    ensures Before(Padded(Slice(0, 0), j + 1, |n|), j + 1 + |n|) && Before(Padded(Slice(0, 0), j + 1, |n|), |s|)
    ensures Rest(s, j + 1 + |n|, x) && LineAt(s, j + 1 + |n|) == LineAt(s, j) + Breaks(n)
    ensures var name, line := Padded(Slice(0, 0), j + 1, |n|), LineAt(s, j);
            && FreshTag(s, j + 1) == TagOut(s, j + 1 + |n|, name, line)
            && NameEvent(s, name, line) == NameEvents(n, line)
            && Waiting(s, name, line) == if n != "" && Blank(n) then 1 else 0
  {
    hide *;
    Assoc(".", n, x);
    Behind(s, j, ".", n + x);
    SameLine(s, j);
    Behind(s, j + 1, n, x);
    LineBehind(s, j + 1, n, x);
    NameIsTag(s, j + 1, 0, n, x);
    TagStops(s, j, inTag);
    FreshIs(s, j + 1);
    PadsText(s, j + 1, n, x, Slice(0, 0), LineAt(s, j));
    FirstName(s, j + 1, n, LineAt(s, j));
    StillBefore(Padded(Slice(0, 0), j + 1, |n|), j + 1 + |n|, |s|);
  }

  lemma FreshIs(s: string, i: nat)
    requires i <= |s|
    ensures FreshTag(s, i) == TagOut(s, i, Slice(0, 0), LineAt(s, i)) && Before(Slice(0, 0), i)
  {
  }

  lemma HeadParts(n: string, os: seq<Opt>)
    requires FineHead(n, os)
    ensures Named(n) && (forall o | o in os :: FineOpt(o)) && (if n != "" && Blank(n) then 1 else 0) + Gaps(os) <= 1
  {
  }

  /** From k on a tag is read as fin says, behind the name if there is one to hand out. */
  ghost predicate Ends(s: string, k: nat, line: nat, fin: Out) {
    && k <= |s|
    && forall name: Slice | Before(name, k) ::
         TagOut(s, k, name, line) == Out(NameEvent(s, name, line) + fin.events, fin.next)
  }

  lemma EndsIs(s: string, k: nat, line: nat, fin: Out, name: Slice)
    requires Ends(s, k, line, fin) && Before(name, k)
    ensures TagOut(s, k, name, line) == Out(NameEvent(s, name, line) + fin.events, fin.next)
  {
  }

  lemma EndsFinishes(s: string, k: nat, line: nat, fin: Out)
    requires Ends(s, k, line, fin)
    ensures Finishes(s, k, line, fin)
  {
    hide TagOut, NameEvent;
    assert [] + fin.events == fin.events;
  }

  /** The tag that begins at j: its name and its options, and then as fin says. */
  lemma HeadStarts(s: string, j: nat, n: string, os: seq<Opt>, tail: string, inTag: bool, fin: Out)
    requires Rest(s, j, "." + n + (OptsShown(os) + tail)) && FineHead(n, os)
    requires os != [] || (tail != "" && (tail[0] == '[' || tail[0] == '{'))
    requires var k := j + 1 + |n| + |OptsShown(os)|;
             j < |s| && (if os == [] then Ends(s, k, LineAt(s, j), fin) else Finishes(s, k, LineAt(s, j), fin))
    ensures AtStop(s, j, inTag) && j < |s| && s[j] == '.' && IsTagAt(s, j + 1)
    ensures var line := LineAt(s, j);
            FreshTag(s, j + 1) ==
            Out(NameEvents(n, line) + OptsEvents(os, line + Breaks(n)) + fin.events, fin.next)
  {
    hide *;
    HeadParts(n, os);
    FirstOfOptions(os, tail);
    NameStarts(s, j, n, OptsShown(os) + tail, inTag);
    var k, name, line := j + 1 + |n|, Padded(Slice(0, 0), j + 1, |n|), LineAt(s, j);
    if os == [] {
      NoOpts();
      EndsIs(s, k, line, fin, name);
      EndsFinishes(s, k, line, fin);
    }
    OptsParse(s, k, name, os, tail, line, fin);
  }

  /** Behind the name and the options of a tag. */
  lemma HeadPasses(s: string, j: nat, n: string, os: seq<Opt>, tail: string)
    requires Rest(s, j, "." + n + (OptsShown(os) + tail))
    ensures var k := j + 1 + |n| + |OptsShown(os)|;
            j < k <= |s| && Rest(s, k, tail) && LineAt(s, k) == LineAt(s, j) + Breaks(n) + Breaks(OptsShown(os))
  {
    hide *;
    Assoc(".", n, OptsShown(os) + tail);
    CharRead(s, j, '.', n + (OptsShown(os) + tail));
    TextRead(s, j + 1, n, OptsShown(os) + tail);
    TextRead(s, j + 1 + |n|, OptsShown(os), tail);
  }

  /** A tag ends with the end of its body. */
  lemma BraceEnds(s: string, k: nat, line: nat, events: seq<Event>, next: nat)
    requires k < |s| && s[k] == '{' && BodyOut(s, k + 1, k + 1, true, LineAt(s, k + 1)) == Out(events, next)
    ensures Ends(s, k, line, Out(events + [Event(Token(TagEnd, ""), line)], next))
  {
    hide TagOut, BodyOut, NameEvent, LineAt;
    forall name: Slice | Before(name, k)
      ensures TagOut(s, k, name, line) ==
              Out(NameEvent(s, name, line) + (events + [Event(Token(TagEnd, ""), line)]), next)
    {
      TagStep(s, k, name, line);
      Assoc(NameEvent(s, name, line), events, [Event(Token(TagEnd, ""), line)]);
    }
  }

  lemma BraceReads(s: string, e: nat, line: nat)
    requires e < |s| && s[e] == '}'
    ensures BodyOut(s, e, e, true, line) == Out([], e + 1)
  {
    hide *;
    BodyAtBrace(s, e, e, line);
    FlushNothing(s, e, line);
  }

  lemma NothingMore(a: seq<Event>)
    ensures a + [] == a
  {
  }

  lemma ElementLengths(n: string, os: seq<Opt>, body: Doc, rest: Doc)
    ensures |Shown(Element(n, os, body, rest))| == |n| + |OptsShown(os)| + |Shown(body)| + |Shown(rest)| + 3
  {
    var d := Element(n, os, body, rest);
    assert Shown(d) == "." + n + OptsShown(os) + "{" + Shown(body) + "}" + Shown(rest);
    hide *;
  }

  lemma TagThenRest(s: string, j: nat, inTag: bool, line: nat, g: Out)
    requires j < |s| && s[j] == '.' && IsTagAt(s, j + 1) && FreshTag(s, j + 1) == g
    ensures g.next <= |s|
    ensures var r := BodyOut(s, g.next, g.next, inTag, line);
            BodyOut(s, j, j, inTag, line) == Out(g.events + r.events, r.next)
  {
    hide *;
    BodyAtTag(s, j, j, inTag, line);
    FlushNothing(s, j, line);
    NothingInFront(g.events);
  }

  /** What stands where in the text of a tag. */
  lemma ElementPlaces(s: string, j: nat, n: string, os: seq<Opt>, body: Doc, behind: string)
    requires Rest(s, j, "." + n + (OptsShown(os) + ("{" + (Shown(body) + ("}" + behind)))))
    ensures var b := j + |n| + |OptsShown(os)| + 2;
            var e := b + |Shown(body)|;
            && j < b <= e < |s| && s[b - 1] == '{' && s[e] == '}'
            && Rest(s, b, Shown(body) + ("}" + behind)) && Rest(s, e + 1, behind)
            && LineAt(s, b) == LineAt(s, j) + Breaks(n) + Breaks(OptsShown(os))
            && LineAt(s, e + 1) == LineAt(s, b) + Breaks(Shown(body))
  {
    hide *;
    var tail := Shown(body) + ("}" + behind);
    HeadPasses(s, j, n, os, "{" + tail);
    var k := j + 1 + |n| + |OptsShown(os)|;
    Behind(s, k, "{", tail);
    SameLine(s, k);
    CharPasses(s, k + 1, Shown(body), '}', behind);
  }

  /** The tag whose body has been read. */
  lemma ElementTag(s: string, j: nat, n: string, os: seq<Opt>, body: Doc, behind: string, inTag: bool)
    requires Rest(s, j, "." + n + (OptsShown(os) + ("{" + (Shown(body) + ("}" + behind))))) && FineHead(n, os)
    requires var b := j + |n| + |OptsShown(os)| + 2; b <= |s| && Reads(s, b, body, true, LineAt(s, b))
    ensures AtStop(s, j, inTag) && j < |s| && s[j] == '.' && IsTagAt(s, j + 1)
    ensures var line := LineAt(s, j);
            var first := line + Breaks(n) + Breaks(OptsShown(os));
            FreshTag(s, j + 1) ==
            Out(NameEvents(n, line) + OptsEvents(os, line + Breaks(n))
                + (EventsOf(body, first, first) + [Event(Token(TagEnd, ""), line)]),
                j + |n| + |OptsShown(os)| + |Shown(body)| + 3)
  {
    hide *;
    ElementPlaces(s, j, n, os, body, behind);
    var b, line := j + |n| + |OptsShown(os)| + 2, LineAt(s, j);
    var e, events := b + |Shown(body)|, EventsOf(body, LineAt(s, b), LineAt(s, b));
    ReadsIs(s, b, body, true, LineAt(s, b));
    BraceReads(s, e, LineAt(s, b));
    NothingMore(events);
    BraceEnds(s, b - 1, line, events, e + 1);
    var fin := Out(events + [Event(Token(TagEnd, ""), line)], e + 1);
    EndsFinishes(s, b - 1, line, fin);
    HeadStarts(s, j, n, os, "{" + (Shown(body) + ("}" + behind)), inTag, fin);
  }

  lemma ElementReads(s: string, j: nat, n: string, os: seq<Opt>, body: Doc, rest: Doc, behind: string, inTag: bool,
                     line: nat)
    requires Rest(s, j, "." + n + (OptsShown(os) + ("{" + (Shown(body) + ("}" + behind))))) && FineHead(n, os)
    requires var b := j + |n| + |OptsShown(os)| + 2;
             b <= |s| && Reads(s, b, body, true, LineAt(s, b)) && Reads(s, b + |Shown(body)| + 1, rest, inTag, line)
    ensures Reads(s, j, Element(n, os, body, rest), inTag, line) && AtStop(s, j, inTag)
  {
    hide *;
    ElementPlaces(s, j, n, os, body, behind);
    ElementTag(s, j, n, os, body, behind, inTag);
    ElementLengths(n, os, body, rest);
    var g := FreshTag(s, j + 1);
    TagThenRest(s, j, inTag, line, g);
    ThenRest(g.events, s, g.next, rest, inTag, line);
    EventsStep(Element(n, os, body, rest), LineAt(s, j), line);
    ReadsIs(s, j, Element(n, os, body, rest), inTag, line);
  }

  lemma FineParts(d: Doc, inTag: bool)
    requires Fine(d, inTag)
    ensures d.Prose? ==> d.text != "" && Quiet(d.text, inTag) && !d.rest.Prose? && Fine(d.rest, inTag)
    ensures d.Note? ==> NoCommentEnd(d.text) && Fine(d.rest, inTag)
    ensures d.Quote? ==> Paired(d.text) && !d.rest.Quote? && Fine(d.rest, inTag)
    ensures d.Element? ==> FineHead(d.name, d.options) && Fine(d.body, true) && Fine(d.rest, inTag)
  {
    hide FineHead, Paired, NoCommentEnd, Quiet;
  }

  lemma FollowsOn(d: Doc, post: string)
    requires Follows(d, post) && !d.End?
    ensures Follows(d.rest, post)
  {
  }

  lemma {:induction false} BraceFollows(d: Doc, behind: string)
    ensures Follows(d, "}" + behind) && Stops("}" + behind)
  {
    if !d.End? {
      BraceFollows(d.rest, behind);
    }
  }

  lemma BraceStops(s: string, e: nat)
    requires e < |s| && s[e] == '}'
    ensures AtStop(s, e, true)
  {
  }

  lemma EndShown(post: string)
    ensures Shown(End) + post == post && |Shown(End)| == 0
  {
  }

  /** The text of a document, and something behind it that is no text. */
  lemma {:induction false} DocReads(s: string, j: nat, d: Doc, post: string, inTag: bool, line: nat)
    requires Rest(s, j, Shown(d) + post) && Fine(d, inTag) && Follows(d, post) && Stops(post)
    requires AtStop(s, j + |Shown(d)|, inTag)
    ensures Reads(s, j, d, inTag, line) && (!d.Prose? ==> AtStop(s, j, inTag))
    decreases d, 1
  {
    hide *;
    FineParts(d, inTag);
    Behind(s, j, Shown(d), post);
    if d.End? {
      EndShown(post);
      EndReads(s, j, inTag, line);
    } else {
      FollowsOn(d, post);
    }
    match d
    case End =>
    case Prose(t, rest) =>
      ProseShown(t, rest, post);
      Behind(s, j, t, Shown(rest) + post);
      DocReads(s, j + |t|, rest, post, inTag, line);
      ProseReads(s, j, t, rest, post, inTag, line);
    case Note(t, rest) =>
      NoteShown(t, rest, post);
      NoteStarts(s, j, t, Shown(rest) + post, inTag);
      DocReads(s, j + |t| + 4, rest, post, inTag, line);
      NoteReads(s, j, t, rest, post, inTag, line);
    case Quote(t, rest) =>
      QuoteShown(t, rest, post);
      NoBacktick(t, rest, post, inTag);
      QuoteStarts(s, j, t, Shown(rest) + post, inTag);
      DocReads(s, j + |t| + 2, rest, post, inTag, line);
      QuoteReads(s, j, t, rest, post, inTag, line);
    case Element(n, os, body, rest) =>
      ElementShown(n, os, body, rest, post);
      ElementLengths(n, os, body, rest);
      TagReads(s, j, n, os, body, rest, post, inTag, line);
  }

  lemma {:induction false} TagReads(s: string, j: nat, n: string, os: seq<Opt>, body: Doc, rest: Doc, post: string,
                                    inTag: bool, line: nat)
    requires Rest(s, j, "." + n + (OptsShown(os) + ("{" + (Shown(body) + ("}" + (Shown(rest) + post))))))
    requires FineHead(n, os) && Fine(body, true) && Fine(rest, inTag) && Follows(rest, post) && Stops(post)
    requires AtStop(s, j + |n| + |OptsShown(os)| + |Shown(body)| + |Shown(rest)| + 3, inTag)
    ensures Reads(s, j, Element(n, os, body, rest), inTag, line) && AtStop(s, j, inTag)
    decreases Element(n, os, body, rest), 0
  {
    hide *;
    var behind := Shown(rest) + post;
    ElementPlaces(s, j, n, os, body, behind);
    var b := j + |n| + |OptsShown(os)| + 2;
    BraceFollows(body, behind);
    BraceStops(s, b + |Shown(body)|);
    DocReads(s, b, body, "}" + behind, true, LineAt(s, b));
    DocReads(s, b + |Shown(body)| + 1, rest, post, inTag, line);
    ElementReads(s, j, n, os, body, rest, behind, inTag, line);
  }

  // ----- texts that break off

  lemma RestIs(s: string, i: nat, x: string)
    requires Rest(s, i, x)
    ensures i + |x| == |s| && s[i..] == x && Rest(s, i, x + "")
  {
    assert x + "" == x;
  }

  lemma {:induction false} CloseMisses(s: string, i: nat, k: nat, t: string, equals: bool)
    requires Rest(s, i, t) && Open(t, equals) && k <= |t|
    ensures i + |t| == |s| && Close(s, i, i + k, equals) == |s|
    decreases |t| - k
  {
    hide Close, Rest;
    RestIs(s, i, t);
    if k == |t| {
      CloseAtEnd(s, i, equals);
    } else {
      CloseMisses(s, i, k + 1, t, equals);
      assert s[i + k] == t[k] && (k > 0 ==> s[i + k - 1] == t[k - 1]);
      CloseStep(s, i, i + k, equals);
    }
  }

  lemma {:induction false} CommentMisses(s: string, i: nat, k: nat, t: string)
    requires Rest(s, i, t) && NoCommentEnd(t) && k <= |t|
    ensures i + |t| == |s| && CommentEnd(s, i + k) == |s|
    decreases |t| - k
  {
    RestIs(s, i, t);
    hide Rest, CommentEnd;
    if k < |t| {
      CommentMisses(s, i, k + 1, t);
      assert s[i + k] == t[k] && (k + 1 < |t| ==> s[i + k + 1] == t[k + 1]);
      CommentStep(s, i + k);
    } else {
      CommentAtEnd(s);
    }
  }

  lemma {:induction false} LiteralMisses(s: string, i: nat, t: string)
    requires Rest(s, i, t) && Paired(t)
    ensures i + |t| == |s| && LiteralEnd(s, i) == |s|
    decreases |t|
  {
    hide *;
    RestIs(s, i, t);
    if t == "" {
      LiteralAtEnd(s);
    } else {
      LiteralMore(s, i, t, "");
      var n := if t[0] == '`' then 2 else 1;
      assert t[n..] + "" == t[n..];
      LiteralMisses(s, i + n, t[n..]);
    }
  }

  lemma NothingOut(s: string, i: nat)
    requires i <= |s|
    ensures CommentEnd(s, i) == |s| ==> CommentOut(s, i) == Out([], |s|)
    ensures LiteralEnd(s, i) == |s| ==> LiteralOut(s, i) == Out([], |s|)
    ensures Close(s, i, i, true) == |s| ==> OptionOut(s, i) == Out([], |s|)
    ensures Close(s, i, i, false) == |s| ==> AttrValueOut(s, i) == Out([], |s|)
  {
    hide Close, LiteralEnd, CommentEnd;
  }

  lemma EndIsEmpty(s: string, inTag: bool, line: nat)
    ensures BodyOut(s, |s|, |s|, inTag, line) == Out([], |s|) && AtStop(s, |s|, inTag)
  {
    BodyAtEnd(s, |s|, inTag, line);
  }

  lemma NothingAtAll()
    ensures var none: seq<Event> := []; none + none + none == none
  {
  }

  lemma NoteCutReads(s: string, j: nat, t: string, inTag: bool, line: nat)
    requires Rest(s, j, "/*" + t) && NoCommentEnd(t)
    ensures j <= |s| && AtStop(s, j, inTag) && BodyOut(s, j, j, inTag, line) == Out([], |s|)
  {
    hide *;
    MarkPasses(s, j, '/', '*', t);
    CommentStops(s, j, inTag);
    CommentMisses(s, j + 2, 0, t);
    NothingOut(s, j + 2);
    BodyAtComment(s, j, j, inTag, line);
    FlushNothing(s, j, line);
    EndIsEmpty(s, inTag, line);
    NothingAtAll();
  }

  lemma QuoteCutReads(s: string, j: nat, t: string, inTag: bool, line: nat)
    requires Rest(s, j, "`" + t) && Paired(t)
    ensures j <= |s| && AtStop(s, j, inTag) && BodyOut(s, j, j, inTag, line) == Out([], |s|)
  {
    hide *;
    Behind(s, j, "`", t);
    LiteralStops(s, j, inTag);
    LiteralMisses(s, j + 1, t);
    NothingOut(s, j + 1);
    BodyAtLiteral(s, j, j, inTag, line);
    FlushNothing(s, j, line);
    EndIsEmpty(s, inTag, line);
    NothingAtAll();
  }

  lemma NameCutOut(s: string, k: nat, t: string)
    requires Rest(s, k, "[" + t) && Open(t, true)
    ensures k < |s| && s[k] == '[' && OptionOut(s, k + 1) == Out([], |s|)
  {
    hide *;
    Behind(s, k, "[", t);
    CloseMisses(s, k + 1, 0, t, true);
    NothingOut(s, k + 1);
  }

  lemma ValueCutOut(s: string, k: nat, n: string, t: string)
    requires Rest(s, k, "[" + (n + ("=" + t))) && Guarded(n, true) && Open(t, false)
    ensures k < |s| && s[k] == '[' && OptionOut(s, k + 1) == Out([Event(Token(AttrName, n), LineAt(s, k))], |s|)
  {
    hide *;
    AttrNameParses(s, k, n, t);
    CloseMisses(s, k + |n| + 2, 0, t, false);
    NothingOut(s, k + |n| + 2);
    NothingMore([Event(Token(AttrName, n), LineAt(s, k))]);
  }

  lemma OptCutParts(c: OptCut, line: nat)
    requires FineOptCut(c)
    ensures c.Missing? ==> OptCutShown(c) == ""
    ensures c.NameCut? ==> Open(c.text, true) && OptCutShown(c) == "[" + c.text
    ensures c.ValueCut? ==> Guarded(c.name, true) && Open(c.text, false)
    ensures c.ValueCut? ==> OptCutShown(c) == "[" + (c.name + ("=" + c.text))
    ensures OptCutEvents(c, line) == if c.ValueCut? then [Event(Token(AttrName, c.name), line)] else []
  {
    hide Guarded, Open;
  }

  lemma OptionEnds(s: string, k: nat, line: nat, events: seq<Event>)
    requires k < |s| && s[k] == '[' && OptionOut(s, k + 1) == Out(events, |s|)
    ensures Ends(s, k, line, Out(events, |s|))
  {
    hide TagOut, OptionOut, BodyOut, NameEvent;
    forall name: Slice | Before(name, k)
      ensures TagOut(s, k, name, line) == Out(NameEvent(s, name, line) + events, |s|)
    {
      TagStep(s, k, name, line);
      TagStep(s, |s|, Kept(s, name, line), line);
      NothingMore(NameEvent(s, name, line) + events);
    }
  }

  lemma EndFinishes(s: string, line: nat)
    ensures Finishes(s, |s|, line, Out([], |s|))
  {
    hide BodyOut, OptionOut, NameEvent;
  }

  lemma OptCutEnds(s: string, k: nat, os: seq<Opt>, c: OptCut, line: nat)
    requires Rest(s, k, OptCutShown(c)) && k <= |s| && FineOptCut(c) && (c.Missing? ==> os != [])
    ensures var fin := Out(OptCutEvents(c, LineAt(s, k)), |s|);
            if os == [] then Ends(s, k, line, fin) else Finishes(s, k, line, fin)
    ensures os != [] || (OptCutShown(c) != "" && OptCutShown(c)[0] == '[')
  {
    hide *;
    OptCutParts(c, LineAt(s, k));
    var events := OptCutEvents(c, LineAt(s, k));
    if c.Missing? {
      RestIs(s, k, "");
      EndFinishes(s, line);
    } else {
      if c.NameCut? {
        NameCutOut(s, k, c.text);
      } else {
        ValueCutOut(s, k, c.name, c.text);
      }
      OptionEnds(s, k, line, events);
      EndsFinishes(s, k, line, Out(events, |s|));
    }
  }

  lemma HeadCutReads(s: string, j: nat, n: string, os: seq<Opt>, last: OptCut, inTag: bool, line: nat)
    requires Rest(s, j, "." + n + (OptsShown(os) + OptCutShown(last))) && FineCut(HeadCut(n, os, last))
    ensures j <= |s| && AtStop(s, j, inTag)
    ensures BodyOut(s, j, j, inTag, line) == Out(CutEvents(HeadCut(n, os, last), LineAt(s, j), line), |s|)
  {
    hide *;
    var c := HeadCut(n, os, last);
    HeadPasses(s, j, n, os, OptCutShown(last));
    CutParts(c, LineAt(s, j), line);
    var k := j + 1 + |n| + |OptsShown(os)|;
    OptCutEnds(s, k, os, last, LineAt(s, j));
    HeadStarts(s, j, n, os, OptCutShown(last), inTag, Out(OptCutEvents(last, LineAt(s, k)), |s|));
    TagThenRest(s, j, inTag, line, FreshTag(s, j + 1));
    EndIsEmpty(s, inTag, line);
    NothingMore(CutEvents(c, LineAt(s, j), line));
  }

  lemma CutParts(c: Cut, line: nat, outer: nat)
    requires FineCut(c)
    ensures c.Whole? ==> CutShown(c) == "" && CutEvents(c, line, outer) == []
    ensures c.NoteCut? ==> NoCommentEnd(c.text) && CutShown(c) == "/*" + c.text && CutEvents(c, line, outer) == []
    ensures c.QuoteCut? ==> Paired(c.text) && CutShown(c) == "`" + c.text && CutEvents(c, line, outer) == []
    ensures c.HeadCut? ==> FineHead(c.name, c.options) && FineOptCut(c.last) && (c.last.Missing? ==> c.options != [])
    ensures c.HeadCut? ==> CutShown(c) == "." + c.name + (OptsShown(c.options) + OptCutShown(c.last))
    ensures c.HeadCut? ==>
            CutEvents(c, line, outer) ==
            NameEvents(c.name, line) + OptsEvents(c.options, line + Breaks(c.name))
            + OptCutEvents(c.last, line + Breaks(c.name) + Breaks(OptsShown(c.options)))
    ensures c.BodyCut? ==>
            FineHead(c.name, c.options) && Fine(c.body, true) && Follows(c.body, CutShown(c.cut)) && FineCut(c.cut)
    ensures c.BodyCut? ==>
            CutShown(c) == "." + c.name + (OptsShown(c.options) + ("{" + (Shown(c.body) + CutShown(c.cut))))
    ensures c.BodyCut? ==>
            var first := line + Breaks(c.name) + Breaks(OptsShown(c.options));
            CutEvents(c, line, outer) ==
            NameEvents(c.name, line) + OptsEvents(c.options, line + Breaks(c.name))
            + (EventsOf(c.body, first, first) + CutEvents(c.cut, first + Breaks(Shown(c.body)), first)
               + [Event(Token(TagEnd, ""), line)])
  {
    hide FineHead, FineOptCut, Fine, Follows, Paired, NoCommentEnd, Shown, OptsShown, OptCutShown, EventsOf, NameEvents,
         OptsEvents, OptCutEvents, Breaks;
  }

  lemma CutStops(c: Cut)
    ensures Stops(CutShown(c))
  {
  }

  /** A tag that breaks off in its body, where that has been read. */
  lemma BodyCutReads(s: string, j: nat, n: string, os: seq<Opt>, tail: string, inTag: bool, line: nat,
                     inner: seq<Event>)
    requires Rest(s, j, "." + n + (OptsShown(os) + ("{" + tail))) && FineHead(n, os)
    requires var b := j + |n| + |OptsShown(os)| + 2;
             b <= |s| && BodyOut(s, b, b, true, LineAt(s, b)) == Out(inner, |s|)
    ensures j <= |s| && AtStop(s, j, inTag)
    ensures var l := LineAt(s, j);
            BodyOut(s, j, j, inTag, line) ==
            Out(NameEvents(n, l) + OptsEvents(os, l + Breaks(n)) + (inner + [Event(Token(TagEnd, ""), l)]), |s|)
  {
    hide *;
    HeadPasses(s, j, n, os, "{" + tail);
    var k, l := j + 1 + |n| + |OptsShown(os)|, LineAt(s, j);
    Behind(s, k, "{", tail);
    BraceEnds(s, k, l, inner, |s|);
    var fin := Out(inner + [Event(Token(TagEnd, ""), l)], |s|);
    EndsFinishes(s, k, l, fin);
    HeadStarts(s, j, n, os, "{" + tail, inTag, fin);
    TagThenRest(s, j, inTag, line, FreshTag(s, j + 1));
    EndIsEmpty(s, inTag, line);
    NothingMore(FreshTag(s, j + 1).events);
  }

  lemma {:induction false} CutReads(s: string, j: nat, c: Cut, inTag: bool, line: nat)
    requires Rest(s, j, CutShown(c)) && FineCut(c)
    ensures j <= |s| && AtStop(s, j, inTag)
    ensures BodyOut(s, j, j, inTag, line) == Out(CutEvents(c, LineAt(s, j), line), |s|)
    decreases c, 0
  {
    hide *;
    RestIs(s, j, CutShown(c));
    CutParts(c, LineAt(s, j), line);
    match c
    case Whole => EndIsEmpty(s, inTag, line);
    case NoteCut(t) => NoteCutReads(s, j, t, inTag, line);
    case QuoteCut(t) => QuoteCutReads(s, j, t, inTag, line);
    case HeadCut(n, os, last) => HeadCutReads(s, j, n, os, last, inTag, line);
    case BodyCut(n, os, body, cut) => BodyCutsOff(s, j, n, os, body, cut, inTag, line);
  }

  lemma {:induction false} BodyCutsOff(s: string, j: nat, n: string, os: seq<Opt>, body: Doc, cut: Cut, inTag: bool,
                                       line: nat)
    requires Rest(s, j, "." + n + (OptsShown(os) + ("{" + (Shown(body) + CutShown(cut)))))
    requires FineHead(n, os) && Fine(body, true) && Follows(body, CutShown(cut)) && FineCut(cut)
    ensures j <= |s| && AtStop(s, j, inTag)
    ensures var l := LineAt(s, j);
            var first := l + Breaks(n) + Breaks(OptsShown(os));
            BodyOut(s, j, j, inTag, line) ==
            Out(NameEvents(n, l) + OptsEvents(os, l + Breaks(n))
                + (EventsOf(body, first, first) + CutEvents(cut, first + Breaks(Shown(body)), first)
                   + [Event(Token(TagEnd, ""), l)]), |s|)
    decreases cut, 2
  {
    hide *;
    var tail := Shown(body) + CutShown(cut);
    HeadPasses(s, j, n, os, "{" + tail);
    var k := j + 1 + |n| + |OptsShown(os)|;
    Behind(s, k, "{", tail);
    SameLine(s, k);
    var first := LineAt(s, k + 1);
    TextAndCutRead(s, k + 1, body, cut, true, first);
    BodyCutReads(s, j, n, os, tail, inTag, line,
                 EventsOf(body, first, first) + CutEvents(cut, first + Breaks(Shown(body)), first));
  }

  /** A document, and how it breaks off. */
  lemma {:induction false} TextAndCutRead(s: string, j: nat, d: Doc, cut: Cut, inTag: bool, line: nat)
    requires Rest(s, j, Shown(d) + CutShown(cut)) && Fine(d, inTag) && Follows(d, CutShown(cut)) && FineCut(cut)
    ensures j <= |s|
    ensures BodyOut(s, j, j, inTag, line) ==
            Out(EventsOf(d, LineAt(s, j), line) + CutEvents(cut, LineAt(s, j) + Breaks(Shown(d)), line), |s|)
    decreases cut, 1
  {
    hide *;
    Behind(s, j, Shown(d), CutShown(cut));
    LineBehind(s, j, Shown(d), CutShown(cut));
    CutReads(s, j + |Shown(d)|, cut, inTag, line);
    CutStops(cut);
    DocReads(s, j, d, CutShown(cut), inTag, line);
    ReadsIs(s, j, d, inTag, line);
  }

  lemma LinesOf(s: string)
    ensures LineAt(s, 0) == 1 && LineAt(s, |s|) == 1 + Breaks(s)
  {
    assert s[..|s|] == s;
  }

  lemma WholeText(s: string)
    ensures Rest(s, 0, s)
  {
  }

  lemma {:induction false} EndFollows(d: Doc)
    ensures Follows(d, "")
  {
    if !d.End? {
      EndFollows(d.rest);
    }
  }

  lemma ParsedIs(s: string, events: seq<Event>)
    requires BodyOut(s, 0, 0, false, 1) == Out(events, |s|)
    ensures Parsed(s) == events + [Event(Token(Done, ""), 1 + Breaks(s))]
  {
    LinesOf(s);
    hide BodyOut, LineAt, Breaks;
  }

  /** The text of a document, literals and all, is read as its events, with their lines, and
      what breaks off behind it as nothing but the tags it is in. */
  lemma TextReads(d: Doc, cut: Cut)
    requires Fine(d, false) && Follows(d, CutShown(cut)) && FineCut(cut)
    ensures var text := Shown(d) + CutShown(cut);
            Parsed(text) ==
            EventsOf(d, 1, 1) + CutEvents(cut, 1 + Breaks(Shown(d)), 1) + [Event(Token(Done, ""), 1 + Breaks(text))]
  {
    hide *;
    var text := Shown(d) + CutShown(cut);
    WholeText(text);
    LinesOf(text);
    TextAndCutRead(text, 0, d, cut, false, 1);
    ParsedIs(text, EventsOf(d, 1, 1) + CutEvents(cut, 1 + Breaks(Shown(d)), 1));
  }

  lemma NothingCut(line: nat)
    ensures FineCut(Whole) && CutShown(Whole) == "" && CutEvents(Whole, line, 1) == []
  {
  }

  /** The text of a document is read as its events. */
  lemma DocIsRead(d: Doc)
    requires Fine(d, false)
    ensures Parsed(Shown(d)) == EventsOf(d, 1, 1) + [Event(Token(Done, ""), 1 + Breaks(Shown(d)))]
  {
    hide *;
    EndFollows(d);
    NothingCut(1 + Breaks(Shown(d)));
    NothingMore(EventsOf(d, 1, 1));
    assert Shown(d) + "" == Shown(d);
    TextReads(d, Whole);
  }

  /** A document that is one literal, whatever that holds otherwise. */
  lemma LiteralReads(t: string)
    requires Paired(t)
    ensures Parsed("`" + t + "`") == [Event(Token(Literal, t), 1), Event(Token(Done, ""), 1 + Breaks(t))]
  {
    hide *;
    var d := Quote(t, End);
    QuoteShown(t, End, "");
    EndShown("");
    NothingBehind(d, t);
    SingleIsFine(t);
    DocIsRead(d);
    QuoteBreaks(t);
    EventsStep(d, 1, 1);
    EndEvents(1 + Breaks(t), 1);
  }

  lemma NothingBehind(d: Doc, t: string)
    requires Shown(d) + "" == "`" + (t + ("`" + ""))
    ensures Shown(d) == "`" + t + "`"
  {
    hide *;
    assert "`" + "" == "`" && Shown(d) + "" == Shown(d);
    Assoc("`", t, "`");
  }

  lemma SingleIsFine(t: string)
    requires Paired(t)
    ensures Fine(Quote(t, End), false)
  {
  }

  lemma QuoteBreaks(t: string)
    ensures Breaks("`" + t + "`") == Breaks(t)
  {
    BreaksJoin("`" + t, "`");
    BreaksJoin("`", t);
  }

  lemma NoTagThere()
    ensures Paired(".br{}") && Breaks(".br{}") == 0 && "`" + ".br{}" + "`" == "`.br{}`"
  {
    NothingToPair(".br{}");
    hide Paired;
  }

  /** What would be a tag is none inside of a literal. */
  lemma LiteralHere()
    ensures Parsed("`.br{}`") == [Event(Token(Literal, ".br{}"), 1), Event(Token(Done, ""), 1)]
  {
    hide *;
    NoTagThere();
    LiteralReads(".br{}");
  }

  /** The characters of a name, in ASCII. */
  lemma NameCodes(c: char)
    ensures var k := c as int;
            InName(c) <==>
            65 <= k <= 90 || 97 <= k <= 122 || 48 <= k <= 57 || 9 <= k <= 11 || k == 13 || k == 32 || k == 0
  {
  }
}
