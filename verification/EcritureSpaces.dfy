/** White space between the options of a tag: when it is read as the start of another tag. */
module EcritureSpaces {
  import opened Ecriture
  import opened EcritureReading
  import opened EcritureText
  import opened Positions
  import opened Sequences
  import opened Slices
  import opened StringReader

  lemma Halves(w: nat, g: nat)
    ensures 1 + g / 2 == (1 + (1 + g)) / 2
  {
  }

  lemma BracketFirst(s: string, k: nat, os: seq<Opt>, tail: string)
    requires Rest(s, k, OptsShown(os) + tail) && os != []
    ensures k < |s| && s[k] == '['
  {
    assert OptShown(os[0])[0] == '[';
    Behind(s, k, OptsShown(os), tail);
    hide Rest, OptShown;
  }

  /** The name that waits ends before a bracket. */
  ghost predicate BeforeBracket(s: string, name: Slice, line: nat)
    requires Before(name, |s|)
  {
    Waiting(s, name, line) == 1 ==> name.start + name.len < |s| && s[name.start + name.len] == '['
  }

  /** More white space behind a name that waits makes a name that begins with a bracket. */
  lemma GapIsName(s: string, k: nat, name: Slice, o: Opt, line: nat)
    requires Before(name, k) && k + |OptShown(o)| <= |s| && o.gap != ""
    requires Waiting(s, name, line) == 1 && BeforeBracket(s, name, line)
    ensures var next := NextName(s, name, line, k, o);
            |NameEvent(s, next, line)| == 1 && Waiting(s, next, line) == 0
  {
    hide NameEvent, NameEvents, Blank, OptShown;
    var next := NextName(s, name, line, k, o);
    assert next == Slice(name.start, name.len + |o.gap|);
    assert Text(s, next)[name.len] == '[';
    NotBlank(Text(s, next), name.len);
    NameTaken(s, next, Text(s, next), line);
    EventOrBlank(Text(s, next), line);
  }

  lemma NotBlank(t: string, k: nat)
    requires k < |t| && t[k] == '['
    ensures !Blank(t)
  {
    assert t[k] in t;
  }

  /** The events of a tag from its options on: of every two options with white space behind
      them the second adds one. */
  lemma {:induction false} OptsCount(s: string, k: nat, name: Slice, os: seq<Opt>, tail: string, line: nat, fin: Out)
    requires Rest(s, k, OptsShown(os) + tail) && Before(name, k) && Before(name, |s|) && k <= |s|
    requires (forall o | o in os :: FineOpt(o)) && Ends(s, k + |OptsShown(os)|, line, fin)
    requires os != [] ==> BeforeBracket(s, name, line)
    ensures |TagOut(s, k, name, line).events| ==
            |NameEvent(s, name, line)| + |OptsEvents(os, LineAt(s, k))| + (Waiting(s, name, line) + Gaps(os)) / 2
            + |fin.events|
    ensures TagOut(s, k, name, line).next == fin.next
    decreases |os|
  {
    hide *;
    if os == [] {
      NoOpts();
      NoGaps(s, name, line);
      EndsIs(s, k, line, fin, name);
    } else {
      OptsCons(os);
      GapsCons(os);
      var o, next, k' := os[0], NextName(s, name, line, k, os[0]), k + |OptShown(os[0])|;
      Assoc(OptShown(o), OptsShown(os[1..]), tail);
      OptionStep(s, k, name, o, OptsShown(os[1..]) + tail, line);
      StillBefore(next, k', |s|);
      NextCounts(s, k, name, os, tail, line);
      OptsCount(s, k', next, os[1..], tail, line, fin);
      OptsEventsCons(os, LineAt(s, k));
    }
  }

  lemma NoGaps(s: string, name: Slice, line: nat)
    requires Before(name, |s|)
    ensures Gaps([]) == 0 && Waiting(s, name, line) / 2 == 0
  {
    hide NameEvent;
  }

  /** One option: what is waiting behind it, and whether that is a name. */
  lemma NextCounts(s: string, k: nat, name: Slice, os: seq<Opt>, tail: string, line: nat)
    requires os != [] && Before(name, k) && Before(name, |s|) && BeforeBracket(s, name, line)
    requires Gaps(os) == (if os[0].gap == "" then 0 else 1) + Gaps(os[1..]) && Blank(os[0].gap)
    requires var o := os[0];
             && k + |OptShown(o)| <= |s| && s[k + |Bracket(o)|..k + |OptShown(o)|] == o.gap
             && Rest(s, k + |OptShown(o)|, OptsShown(os[1..]) + tail)
    ensures var next := NextName(s, name, line, k, os[0]);
            && Before(next, |s|) && (os[1..] != [] ==> BeforeBracket(s, next, line))
            && |NameEvent(s, next, line)| + (Waiting(s, next, line) + Gaps(os[1..])) / 2 ==
               (Waiting(s, name, line) + Gaps(os)) / 2
  {
    hide NameEvent, Blank, Rest, Bracket, OptShown, Gaps, OptsShown, NextName;
    var o := os[0];
    var next := NextName(s, name, line, k, o);
    StillBefore(next, k + |OptShown(o)|, |s|);
    if os[1..] != [] {
      BracketFirst(s, k + |OptShown(o)|, os[1..], tail);
    }
    NextPlace(s, name, line, k, o);
    if Waiting(s, name, line) == 1 && o.gap != "" {
      GapIsName(s, k, name, o, line);
      Halves(1, Gaps(os[1..]));
    } else {
      GapIsNoName(s, k, name, o, line);
    }
  }

  lemma NextPlace(s: string, name: Slice, line: nat, k: nat, o: Opt)
    requires Before(name, k) && Before(name, |s|) && k <= |s|
    ensures var next := NextName(s, name, line, k, o);
            && (o.gap == "" && Waiting(s, name, line) == 1 ==> next == name)
            && (o.gap != "" && Waiting(s, name, line) == 0 ==> next.start + next.len == k + |OptShown(o)|)
  {
    NoNameTaken(s, line);
    hide NameEvent, Bracket;
  }

  lemma FirstBracket(s: string, i: nat, n: string, os: seq<Opt>, tail: string, line: nat)
    requires Rest(s, i + |n|, OptsShown(os) + tail) && Before(Padded(Slice(0, 0), i, |n|), |s|)
    ensures os != [] ==> BeforeBracket(s, Padded(Slice(0, 0), i, |n|), line)
  {
    hide NameEvent, OptsShown, Rest;
    if os != [] {
      BracketFirst(s, i + |n|, os, tail);
    }
  }

  /** The text of a tag without a body. */
  lemma EmptyTag(n: string, os: seq<Opt>)
    ensures var d := Element(n, os, End, End);
            Shown(d) == "." + n + (OptsShown(os) + ("{" + ("" + ("}" + "")))) && Shown(End) == ""
  {
    ElementShown(n, os, End, End, "");
    assert Shown(Element(n, os, End, End)) + "" == Shown(Element(n, os, End, End));
    hide Shown, OptsShown;
  }

  lemma EmptyTagEvents(n: string, os: seq<Opt>)
    ensures |EventsOf(Element(n, os, End, End), 1, 1)| == |NameEvents(n, 1)| + |OptsEvents(os, 1 + Breaks(n))| + 1
  {
    hide *;
    EventsStep(Element(n, os, End, End), 1, 1);
    var first := 1 + Breaks(n) + Breaks(OptsShown(os));
    EndEvents(first, first);
    EndEvents(first + Breaks(Shown(End)), 1);
  }

  /** Such a tag from its name on, in terms of its text. */
  lemma EmptyTagCount(s: string, n: string, os: seq<Opt>, tail: string, fin: Out)
    requires Rest(s, 0, "." + n + (OptsShown(os) + tail)) && tail != "" && tail[0] == '{'
    requires Named(n) && (forall o | o in os :: FineOpt(o)) && Ends(s, 1 + |n| + |OptsShown(os)|, 1, fin)
    ensures |s| > 0 && s[0] == '.' && IsTagAt(s, 1) && FreshTag(s, 1).next == fin.next
    ensures |FreshTag(s, 1).events| ==
            |NameEvents(n, 1)| + |OptsEvents(os, 1 + Breaks(n))|
            + ((if n != "" && Blank(n) then 1 else 0) + Gaps(os)) / 2
            + |fin.events|
  {
    hide *;
    FirstOfOptions(os, tail);
    LinesOf(s);
    NameStarts(s, 0, n, OptsShown(os) + tail, false);
    FirstBracket(s, 1, n, os, tail, 1);
    OptsCount(s, 1 + |n|, Padded(Slice(0, 0), 1, |n|), os, tail, 1, fin);
  }

  lemma EmptyTagEnds(s: string, n: string, os: seq<Opt>)
    requires Rest(s, 0, "." + n + (OptsShown(os) + ("{" + ("" + ("}" + ""))))) && Shown(End) == ""
    ensures |s| > 0 && Ends(s, 1 + |n| + |OptsShown(os)|, 1, Out([] + [Event(Token(TagEnd, ""), 1)], |s|))
  {
    hide *;
    ElementPlaces(s, 0, n, os, End, "");
    var b := |n| + |OptsShown(os)| + 2;
    RestIs(s, b + 1, "");
    BraceReads(s, b, LineAt(s, b));
    BraceEnds(s, b - 1, 1, [], b + 1);
  }

  /** Of every two places in which white space stands for a name or behind an option, the
      second adds the start of a tag that is none. */
  lemma SpacesCount(n: string, os: seq<Opt>)
    requires Named(n) && forall o | o in os :: FineOpt(o)
    ensures var d := Element(n, os, End, End);
            |Parsed(Shown(d))| ==
            |EventsOf(d, 1, 1)| + ((if n != "" && Blank(n) then 1 else 0) + Gaps(os)) / 2 + 1
  {
    hide *;
    EmptyTag(n, os);
    EmptyTagEvents(n, os);
    var s := Shown(Element(n, os, End, End));
    WholeText(s);
    EmptyTagEnds(s, n, os);
    EmptyTagCount(s, n, os, "{" + ("" + ("}" + "")), Out([] + [Event(Token(TagEnd, ""), 1)], |s|));
    var g := FreshTag(s, 1);
    TagThenRest(s, 0, false, 1, g);
    EndIsEmpty(s, false, 1);
    ParsedIs(s, g.events + []);
  }

  /** A tag without a body is read as what it says iff white space stands for its name, or
      behind an option, once at most. */
  lemma SpacesExact(n: string, os: seq<Opt>)
    requires Named(n) && forall o | o in os :: FineOpt(o)
    ensures var d := Element(n, os, End, End);
            Parsed(Shown(d)) == EventsOf(d, 1, 1) + [Event(Token(Done, ""), 1 + Breaks(Shown(d)))]
            <==> (if n != "" && Blank(n) then 1 else 0) + Gaps(os) <= 1
  {
    SpacesCount(n, os);
    if Spare(n, os) {
      TagIsFine(n, os);
      DocIsRead(Element(n, os, End, End));
    }
    hide *;
  }

  lemma TagIsFine(n: string, os: seq<Opt>)
    requires Named(n) && (forall o | o in os :: FineOpt(o)) && Spare(n, os)
    ensures Fine(Element(n, os, End, End), false)
  {
    hide Named, FineOpt, Spare;
  }

  lemma TwoOptions()
    ensures var os := [Plain("x", " "), Plain("y", " ")];
            && Named("a") && !Blank("a") && (forall o | o in os :: FineOpt(o)) && Gaps(os) == 2
            && "." + "a" + (OptsShown(os) + ("{" + ("" + ("}" + "")))) == ".a[x] [y] {}"
  {
    var os := [Plain("x", " "), Plain("y", " ")];
    assert os[1..] == [Plain("y", " ")];
    assert 'a' in "a";
    assert OptShown(os[0]) == "[x] " && OptShown(os[1]) == "[y] ";
    assert OptsShown(os[1..]) == "[y] " + "" == "[y] ";
    assert OptsShown(os) == "[x] " + "[y] ";
  }

  /** Two options with a space behind each are read as more than that. */
  lemma SpacesHere()
    ensures var d := Element("a", [Plain("x", " "), Plain("y", " ")], End, End);
            && Shown(d) == ".a[x] [y] {}"
            && |Parsed(Shown(d))| == |EventsOf(d, 1, 1)| + 2
  {
    var os := [Plain("x", " "), Plain("y", " ")];
    TwoOptions();
    hide *;
    EmptyTag("a", os);
    SpacesCount("a", os);
  }
}
