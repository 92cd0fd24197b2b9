/** What a document says, line by line: names with values, comments, empty lines and lines that
    are wrong. The parser hands out just that, and stops at the first line that is wrong. */
module YamlListing {
  import opened Positions
  import opened Sequences
  import opened Slices
  import opened StringReader
  import opened Yaml
  import opened YamlLines
  import opened YamlOutline
  import Chars

  datatype Item =
    | Named(entry: Entry)
    // a comment behind the value, and an empty line
    | Noted(entry: Entry, note: string)
    // a comment, and before it perhaps what would otherwise be a name
    | Remark(depth: nat, name: string, note: string)
    | Empty
    | NoColon(depth: nat, name: string)
    | Spaced(depth: nat, text: string)

  function ItemText(i: Item, end: string): string {
    match i
    case Named(e) => Tabs(e.depth) + (e.name + (":" + (" " + e.value + end)))
    case Noted(e, c) => Tabs(e.depth) + (e.name + (":" + (" " + e.value + ("#" + (c + ("\n" + end))))))
    case Remark(n, x, c) => Tabs(n) + (x + ("#" + (c + end)))
    case Empty => end
    case NoColon(n, x) => Tabs(n) + (x + end)
    case Spaced(n, x) => Tabs(n) + (" " + (x + end))
  }

  /** The last line may do without its line end. */
  function TextOf(items: seq<Item>, whole: bool): string {
    if items == [] then ""
    else ItemText(items[0], if |items| == 1 && !whole then "" else "\n") + TextOf(items[1..], whole)
  }

  predicate FineItem(i: Item) {
    match i
    case Named(e) => Clean(e)
    case Noted(e, c) => Clean(e) && '\n' !in c
    case Remark(n, x, c) => (x != "" ==> NameText(x)) && '\n' !in c
    case Empty => true
    case NoColon(n, x) => NameText(x)
    case Spaced(n, x) => true
  }

  // ----- what is said

  datatype Said = Said(tokens: seq<Token>, fault: Fault)

  function Shift(prev: nat, depth: nat): seq<Token> {
    if depth > prev then [Token(Enter, "")] else seq(prev - depth, _ => Token(Leave, ""))
  }

  function Told(kind: Kind, text: string): seq<Token> {
    if text == "" then [] else [Token(kind, text)]
  }

  /** What a line adds: tokens, and the depth and the permission to indent behind it, or the fault. */
  datatype Step = Go(tokens: seq<Token>, prev: nat, can: bool) | Stop(fault: Fault)

  function StepOf(i: Item, prev: nat, can: bool): (step: Step)
    ensures step.Stop? ==> step.fault != Fine
  {
    match i
    case Named(e) =>
      if !MayFollow(prev, can, e.depth) then Stop(InvalidIndention)
      else Go(Shift(prev, e.depth) + [Token(Name, e.name)] + Told(Value, e.value), e.depth, true)
    case Noted(e, c) =>
      if !MayFollow(prev, can, e.depth) then Stop(InvalidIndention)
      else Go(Shift(prev, e.depth) + [Token(Name, e.name)] + (Told(Comment, c) + Told(Value, e.value)), e.depth, true)
    case Remark(n, x, c) => Go(Told(Comment, c), prev, false)
    case Empty => Go([], prev, can)
    case NoColon(n, x) => Stop(ColonMissing)
    case Spaced(n, x) => Stop(SpaceIndention)
  }

  /** Behind a comment the next name must not be deeper than the last one. */
  function Listing(items: seq<Item>, prev: nat, can: bool): Said
    decreases |items|
  {
    if items == [] then Said(Shift(prev, 0), Fine)
    else
      match StepOf(items[0], prev, can)
      case Go(tokens, depth, deeper) =>
        var rest := Listing(items[1..], depth, deeper);
        Said(tokens + rest.tokens, rest.fault)
      case Stop(fault) => Said([], fault)
  }

  // ----- one line

  /** A line end, or the end of the text. */
  predicate Ended(end: string, post: string) {
    end == "\n" || (end == "" && post == "")
  }

  lemma {:induction false} ShiftIs(n: nat)
    ensures Leaves(n) == seq(n, _ => Token(Leave, ""))
  {
    if n > 0 {
      ShiftIs(n - 1);
      hide Leaves;
      LeavesStep(n);
    }
  }

  lemma LeavesStep(n: nat)
    requires n > 0
    ensures Leaves(n) == [Token(Leave, "")] + Leaves(n - 1)
  {
  }

  lemma MovesAre(prev: nat, depth: nat)
    ensures Moves(prev, depth) == Shift(prev, depth) && Leaves(prev) == Shift(prev, 0)
  {
    ShiftIs(prev);
    if depth <= prev {
      ShiftIs(prev - depth);
    }
    hide Leaves;
  }

  /** Past a line end. */
  lemma EndPasses(s: string, i: nat, end: string, post: string)
    requires Rest(s, i, end + post) && Ended(end, post)
    ensures i + |end| <= |s| && Rest(s, i + |end|, post)
    ensures if end == "" then i == |s| else i < |s| && s[i] == '\n' && |end| == 1
  {
    Behind(s, i, end, post);
    hide Rest;
  }

  lemma CommentIs(s: string, k: nat, c: string, end: string, post: string)
    requires Rest(s, k, c + (end + post)) && '\n' !in c && Ended(end, post)
    ensures k + |c| + |end| <= |s| && Rest(s, k + |c| + |end|, post)
    ensures CommentPiece(s, k) == Piece(Told(Comment, c), k + |c| + |end|)
  {
    hide LineEnd, Rest, Ended;
    Behind(s, k, c, end + post);
    EndPasses(s, k + |c|, end, post);
    LineEndSkips(s, k, c, |c|, end + post);
    LineEndHere(s, k + |c|);
  }

  lemma LineEndHere(s: string, j: nat)
    requires j <= |s| && (j == |s| || s[j] == '\n')
    ensures LineEnd(s, j) == j
  {
  }

  /** The value of a line, and a comment behind it if there is one. */
  lemma ValuePieceIs(s: string, i: nat, v: ValueScan, x: string)
    requires i + |x| + 1 <= |s| && s[i..i + |x| + 1] == " " + x && CleanValue(x)
    requires Scanned(s, i, Slice(0, 0)) == v && v.value == Slice(i, |x| + 1)
    ensures ValueText(s, i) == x && ValuePiece(s, i) == Piece(v.tokens + Told(Value, x), v.next)
  {
    Trimmed(x);
    hide Scanned, Chars.Trim, CleanValue;
  }

  lemma PlainValue(s: string, i: nat, x: string, end: string, post: string)
    requires Rest(s, i, " " + x + (end + post)) && CleanValue(x) && Ended(end, post)
    ensures i + |x| + 1 + |end| <= |s| && Rest(s, i + |x| + 1 + |end|, post)
    ensures ValueText(s, i) == x && ValuePiece(s, i) == Piece(Told(Value, x), i + |x| + 1 + |end|)
  {
    hide Rest, Scanned, ValuePiece, ValueText, CommentPiece, CleanValue, Ended, Told, Text;
    NoMarks(x);
    Behind(s, i, " " + x, end + post);
    EndPasses(s, i + |x| + 1, end, post);
    ScanSkips(s, i, " " + x, |x| + 1, end + post);
    SliceText(s, i, " " + x);
    ScanStops(s, i + |x| + 1, Slice(i, |x| + 1));
    ValuePieceIs(s, i, Scanned(s, i, Slice(0, 0)), x);
    NoneAhead(Told(Value, x));
  }

  lemma ScanStops(s: string, j: nat, value: Slice)
    requires j <= |s| && value.start + value.len == j && (j == |s| || s[j] == '\n')
    ensures Before(value, j) && Scanned(s, j, value) == ValueScan([], value, if j == |s| then j else j + 1)
  {
    hide CommentPiece;
  }

  lemma NoneAhead(t: seq<Token>)
    ensures [] + t == t && t + [] == t
  {
  }

  lemma NotedValue(s: string, i: nat, x: string, c: string, end: string, post: string)
    requires Rest(s, i, " " + x + ("#" + (c + ("\n" + (end + post))))) && CleanValue(x) && '\n' !in c
             && Ended(end, post)
    ensures var next := i + |x| + |c| + 3 + |end|;
            && next <= |s| && Rest(s, next, post)
            && ValueText(s, i) == x && ValuePiece(s, i) == Piece(Told(Comment, c) + Told(Value, x), next)
  {
    hide Rest, Scanned, ValuePiece, ValueText, CommentPiece, CleanValue, Ended, Told, Text;
    NoMarks(x);
    var mark := "#" + (c + ("\n" + (end + post)));
    Behind(s, i, " " + x, mark);
    ScanSkips(s, i, " " + x, |x| + 1, mark);
    var k := i + |x| + 1;
    Behind(s, k, "#", c + ("\n" + (end + post)));
    LineFeedEnds(end + post);
    CommentIs(s, k + 1, c, "\n", end + post);
    EndPasses(s, k + |c| + 2, end, post);
    NotedScan(s, k, Slice(i, |x| + 1), Told(Comment, c), k + |c| + 2);
    SliceText(s, i, " " + x);
    ValuePieceIs(s, i, Scanned(s, i, Slice(0, 0)), x);
  }

  lemma LineFeedEnds(post: string)
    ensures Ended("\n", post)
  {
  }

  /** A comment behind a value, and nothing behind that. */
  lemma NotedScan(s: string, k: nat, value: Slice, note: seq<Token>, l: nat)
    requires k < |s| && s[k] == '#' && CommentPiece(s, k + 1) == Piece(note, l) && Before(value, k)
    requires l == |s| || s[l] == '\n'
    ensures Scanned(s, k, value) == ValueScan(note, value, if l == |s| then l else l + 1)
  {
    hide CommentPiece;
    ScannedStep(s, k, value);
    ScannedStep(s, l, value);
    NoneAhead(note);
  }

  /** The tabs of a line. */
  lemma TabsRun(s: string, j: nat, n: nat, post: string, prev: nat, can: bool)
    requires Rest(s, j, Tabs(n) + post)
    ensures j + n <= |s| && Rest(s, j + n, post)
    ensures ParseOut(s, j, j, 0, prev, can) == ParseOut(s, j + n, j + n, n, prev, can)
  {
    hide *;
    TabsLength(n);
    Behind(s, j, Tabs(n), post);
    TabsSkip(s, j, n, n, post, prev, can);
  }

  /** The tabs of a line and what may become a name. */
  lemma NameRuns(s: string, j: nat, n: nat, x: string, post: string, prev: nat, can: bool)
    requires Rest(s, j, Tabs(n) + (x + post)) && (x != "" ==> NameText(x))
    ensures j + n + |x| <= |s| && s[j + n..j + n + |x|] == x && Rest(s, j + n + |x|, post)
    ensures ParseOut(s, j, j, 0, prev, can) == ParseOut(s, j + n, j + n + |x|, n, prev, can)
  {
    hide *;
    TabsRun(s, j, n, x + post, prev, can);
    Behind(s, j + n, x, post);
    if x != "" {
      NameSkips(s, j + n, x, |x|, post, n, prev, can);
    }
  }

  lemma CleanIs(e: Entry)
    requires Clean(e)
    ensures CleanValue(e.value) && NameText(e.name) && Chars.TrimRight(e.name) == e.name
  {
    NameTrimmed(e.name);
    hide Chars.TrimRight, NameText, CleanValue;
  }

  /** A name up to its colon, and the value as it is read. */
  lemma NameThenValue(s: string, j: nat, e: Entry, post: string, value: Piece, prev: nat, can: bool)
    requires Rest(s, j, Tabs(e.depth) + (e.name + (":" + post))) && Clean(e)
    requires var i := j + e.depth + |e.name| + 1; i <= |s| && ValuePiece(s, i) == value
    ensures value.next <= |s|
    ensures var out := ParseOut(s, j, j, 0, prev, can);
            if MayFollow(prev, can, e.depth) then
              var rest := ParseOut(s, value.next, value.next, 0, e.depth, true);
              && out.fault == rest.fault && out.prev == rest.prev
              && out.tokens == Shift(prev, e.depth) + [Token(Name, e.name)] + value.tokens + rest.tokens
            else out.fault == InvalidIndention && out.tokens == []
  {
    hide ParseOut, ValuePiece, ValueText, Rest, Clean, Moves, Shift, Chars.TrimRight, Tabs;
    CleanIs(e);
    NameRuns(s, j, e.depth, e.name, ":" + post, prev, can);
    var v, c := j + e.depth, j + e.depth + |e.name|;
    Behind(s, c, ":", post);
    ParseColon(s, v, c, e.depth, prev, can);
    MovesAre(prev, e.depth);
  }

  lemma ColonPasses(s: string, j: nat, e: Entry, post: string)
    requires Rest(s, j, Tabs(e.depth) + (e.name + (":" + post)))
    ensures j + e.depth + |e.name| + 1 <= |s| && Rest(s, j + e.depth + |e.name| + 1, post)
  {
    hide *;
    TabsLength(e.depth);
    Behind(s, j, Tabs(e.depth), e.name + (":" + post));
    Behind(s, j + e.depth, e.name, ":" + post);
    Behind(s, j + e.depth + |e.name|, ":", post);
  }

  // ----- all lines

  /** What a line adds to what is read behind it. */
  ghost predicate Read(i: Item, prev: nat, can: bool, s: string, j: nat, next: nat)
    requires j <= |s| && next <= |s|
  {
    var out := ParseOut(s, j, j, 0, prev, can);
    match StepOf(i, prev, can)
    case Go(tokens, depth, deeper) =>
      var rest := ParseOut(s, next, next, 0, depth, deeper);
      out.tokens == tokens + rest.tokens && out.fault == rest.fault && out.prev == rest.prev
    case Stop(fault) => out.tokens == [] && out.fault == fault
  }

  lemma NamedReads(s: string, j: nat, e: Entry, end: string, post: string, prev: nat, can: bool)
    requires Rest(s, j, Tabs(e.depth) + (e.name + (":" + (" " + e.value + (end + post))))) && Clean(e)
             && Ended(end, post)
    ensures var next := j + e.depth + |e.name| + |e.value| + 2 + |end|;
            j <= |s| && next <= |s| && Rest(s, next, post) && Read(Named(e), prev, can, s, j, next)
  {
    hide ParseOut, ValuePiece, ValueText, Rest, Clean, Shift, Tabs, Ended, Told;
    ColonPasses(s, j, e, " " + e.value + (end + post));
    CleanIs(e);
    var i := j + e.depth + |e.name| + 1;
    PlainValue(s, i, e.value, end, post);
    NameThenValue(s, j, e, " " + e.value + (end + post), ValuePiece(s, i), prev, can);
  }

  lemma NotedReads(s: string, j: nat, e: Entry, c: string, end: string, post: string, prev: nat, can: bool)
    requires Rest(s, j, Tabs(e.depth) + (e.name + (":" + (" " + e.value + ("#" + (c + ("\n" + (end + post))))))))
    requires Clean(e) && '\n' !in c && Ended(end, post)
    ensures var next := j + e.depth + |e.name| + |e.value| + |c| + 4 + |end|;
            j <= |s| && next <= |s| && Rest(s, next, post) && Read(Noted(e, c), prev, can, s, j, next)
  {
    hide ParseOut, ValuePiece, ValueText, Rest, Clean, Shift, Tabs, Ended, Told;
    var tail := " " + e.value + ("#" + (c + ("\n" + (end + post))));
    ColonPasses(s, j, e, tail);
    CleanIs(e);
    var i := j + e.depth + |e.name| + 1;
    NotedValue(s, i, e.value, c, end, post);
    NameThenValue(s, j, e, tail, ValuePiece(s, i), prev, can);
  }

  lemma RemarkReads(s: string, j: nat, n: nat, x: string, c: string, end: string, post: string, prev: nat, can: bool)
    requires Rest(s, j, Tabs(n) + (x + ("#" + (c + (end + post)))))
    requires (x != "" ==> NameText(x)) && '\n' !in c && Ended(end, post)
    ensures var next := j + n + |x| + |c| + 1 + |end|;
            j <= |s| && next <= |s| && Rest(s, next, post) && Read(Remark(n, x, c), prev, can, s, j, next)
  {
    hide ParseOut, CommentPiece, Rest, Tabs, Ended, Told, NameText;
    NameRuns(s, j, n, x, "#" + (c + (end + post)), prev, can);
    var k := j + n + |x|;
    Behind(s, k, "#", c + (end + post));
    CommentIs(s, k + 1, c, end, post);
    ParseHash(s, j + n, k, n, prev, can);
  }

  lemma EmptyReads(s: string, j: nat, end: string, post: string, prev: nat, can: bool)
    requires Rest(s, j, end + post) && Ended(end, post)
    ensures var next := j + |end|;
            j <= |s| && next <= |s| && Rest(s, next, post) && Read(Empty, prev, can, s, j, next)
  {
    hide ParseOut, Rest, Ended;
    EndPasses(s, j, end, post);
    if end != "" {
      ParseChar(s, j, j, 0, prev, can);
    }
  }

  lemma NoColonReads(s: string, j: nat, n: nat, x: string, end: string, post: string, prev: nat, can: bool)
    requires Rest(s, j, Tabs(n) + (x + (end + post))) && NameText(x) && Ended(end, post)
    ensures var next := j + n + |x| + |end|;
            j <= |s| && next <= |s| && Rest(s, next, post) && Read(NoColon(n, x), prev, can, s, j, next)
  {
    assert x != "";
    hide ParseOut, Rest, Ended, NameText;
    NameRuns(s, j, n, x, end + post, prev, can);
    var k := j + n + |x|;
    EndPasses(s, k, end, post);
    if end == "" {
      ParseEnd(s, j + n, n, prev, can);
    } else {
      ParseChar(s, j + n, k, n, prev, can);
    }
  }

  lemma SpacedReads(s: string, j: nat, n: nat, tail: string, prev: nat, can: bool)
    requires Rest(s, j, Tabs(n) + (" " + tail))
    ensures j <= |s| && (var out := ParseOut(s, j, j, 0, prev, can); out.tokens == [] && out.fault == SpaceIndention)
  {
    hide ParseOut, Rest;
    TabsRun(s, j, n, " " + tail, prev, can);
    Behind(s, j + n, " ", tail);
    ParseChar(s, j + n, j + n, n, prev, can);
  }

  lemma NamedText(e: Entry, end: string, post: string)
    ensures var text := ItemText(Named(e), end);
            && text + post == Tabs(e.depth) + (e.name + (":" + (" " + e.value + (end + post))))
            && |text| == e.depth + |e.name| + |e.value| + 2 + |end|
  {
    TabsLength(e.depth);
    assert ItemText(Named(e), end) == Tabs(e.depth) + (e.name + (":" + (" " + e.value + end)));
    hide *;
    Join4(Tabs(e.depth), e.name, ":", " " + e.value, end, post);
  }

  lemma NotedText(e: Entry, c: string, end: string, post: string)
    ensures var text := ItemText(Noted(e, c), end);
            && text + post ==
               Tabs(e.depth) + (e.name + (":" + (" " + e.value + ("#" + (c + ("\n" + (end + post)))))))
            && |text| == e.depth + |e.name| + |e.value| + |c| + 4 + |end|
  {
    TabsLength(e.depth);
    assert ItemText(Noted(e, c), end) ==
           Tabs(e.depth) + (e.name + (":" + (" " + e.value + ("#" + (c + ("\n" + end))))));
    hide *;
    Join4(Tabs(e.depth), e.name, ":", " " + e.value, "#" + (c + ("\n" + end)), post);
    Join3("#", c, "\n", end, post);
  }

  lemma RemarkText(n: nat, x: string, c: string, end: string, post: string)
    ensures var text := ItemText(Remark(n, x, c), end);
            && text + post == Tabs(n) + (x + ("#" + (c + (end + post))))
            && |text| == n + |x| + |c| + 1 + |end|
  {
    TabsLength(n);
    assert ItemText(Remark(n, x, c), end) == Tabs(n) + (x + ("#" + (c + end)));
    hide *;
    Join4(Tabs(n), x, "#", c, end, post);
  }

  lemma NoColonText(n: nat, x: string, end: string, post: string)
    ensures var text := ItemText(NoColon(n, x), end);
            text + post == Tabs(n) + (x + (end + post)) && |text| == n + |x| + |end|
  {
    TabsLength(n);
    assert ItemText(NoColon(n, x), end) == Tabs(n) + (x + end);
    hide *;
    Assoc(Tabs(n), x + end, post);
    Assoc(x, end, post);
  }

  lemma SpacedText(n: nat, x: string, end: string, post: string)
    ensures var text := ItemText(Spaced(n, x), end);
            text + post == Tabs(n) + (" " + (x + (end + post))) && |text| == n + |x| + 1 + |end|
  {
    TabsLength(n);
    assert ItemText(Spaced(n, x), end) == Tabs(n) + (" " + (x + end));
    hide *;
    Join3(Tabs(n), " ", x, end, post);
  }

  lemma Join3(a: string, b: string, c: string, end: string, post: string)
    ensures a + (b + (c + end)) + post == a + (b + (c + (end + post)))
  {
    Assoc(a, b + (c + end), post);
    Assoc(b, c + end, post);
    Assoc(c, end, post);
  }

  lemma Join4(a: string, b: string, c: string, d: string, end: string, post: string)
    ensures a + (b + (c + (d + end))) + post == a + (b + (c + (d + (end + post))))
  {
    Assoc(a, b + (c + (d + end)), post);
    Join3(b, c, d, end, post);
  }

  /** One line: it adds what it says, or is where reading stops. */
  lemma ItemReads(s: string, j: nat, i: Item, end: string, post: string, prev: nat, can: bool)
    requires Rest(s, j, ItemText(i, end) + post) && FineItem(i) && Ended(end, post)
    ensures var next := j + |ItemText(i, end)|;
            j <= next <= |s| && Rest(s, next, post) && Read(i, prev, can, s, j, next)
  {
    FineParts(i);
    hide *;
    match i
    case Named(e) =>
      NamedText(e, end, post);
      NamedReads(s, j, e, end, post, prev, can);
    case Noted(e, c) =>
      NotedText(e, c, end, post);
      NotedReads(s, j, e, c, end, post, prev, can);
    case Remark(n, x, c) =>
      RemarkText(n, x, c, end, post);
      RemarkReads(s, j, n, x, c, end, post, prev, can);
    case Empty =>
      EmptyText(end);
      EmptyReads(s, j, end, post, prev, can);
    case NoColon(n, x) =>
      NoColonText(n, x, end, post);
      NoColonReads(s, j, n, x, end, post, prev, can);
    case Spaced(n, x) =>
      SpacedText(n, x, end, post);
      SpacedReads(s, j, n, x + (end + post), prev, can);
      SpacedStops(i, prev, can, s, j, j + |ItemText(i, end)|);
  }

  lemma EmptyText(end: string)
    ensures ItemText(Empty, end) == end
  {
  }

  lemma FineParts(i: Item)
    requires FineItem(i)
    ensures i.Named? || i.Noted? ==> Clean(i.entry)
    ensures i.Noted? || i.Remark? ==> '\n' !in i.note
    ensures i.Remark? ==> i.name != "" ==> NameText(i.name)
    ensures i.NoColon? ==> NameText(i.name)
  {
    hide Clean, NameText;
  }

  lemma SpacedStops(i: Item, prev: nat, can: bool, s: string, j: nat, next: nat)
    requires j <= |s| && next <= |s| && i.Spaced?
    requires var out := ParseOut(s, j, j, 0, prev, can); out.tokens == [] && out.fault == SpaceIndention
    ensures Read(i, prev, can, s, j, next)
  {
    hide ParseOut;
  }

  lemma LastEnds(items: seq<Item>, whole: bool)
    requires items != []
    ensures Ended(if |items| == 1 && !whole then "" else "\n", TextOf(items[1..], whole))
  {
  }

  /** From a line on: the tokens, with those that close what is open at the end. */
  lemma {:induction false} LinesSay(s: string, j: nat, items: seq<Item>, whole: bool, prev: nat, can: bool)
    requires Rest(s, j, TextOf(items, whole)) && forall i | i in items :: FineItem(i)
    ensures j <= |s|
    ensures var out, said := ParseOut(s, j, j, 0, prev, can), Listing(items, prev, can);
            out.fault == said.fault && out.tokens + (if out.fault == Fine then Leaves(out.prev) else []) == said.tokens
    decreases |items|
  {
    hide ParseOut, ItemText, FineItem, StepOf, Shift, Leaves;
    if items == [] {
      ParseEnd(s, j, 0, prev, can);
      MovesAre(prev, 0);
    } else {
      hide Rest;
      var end := if |items| == 1 && !whole then "" else "\n";
      LastEnds(items, whole);
      ItemReads(s, j, items[0], end, TextOf(items[1..], whole), prev, can);
      var step := StepOf(items[0], prev, can);
      if step.Go? {
        var next := j + |ItemText(items[0], end)|;
        LinesSay(s, next, items[1..], whole, step.prev, step.can);
        var rest := ParseOut(s, next, next, 0, step.prev, step.can);
        Assoc(step.tokens, rest.tokens, if rest.fault == Fine then Leaves(rest.prev) else []);
      }
    }
  }

  /** The tokens of a document, and how it ends, are what its lines say. */
  lemma DocumentSays(items: seq<Item>, whole: bool)
    requires forall i | i in items :: FineItem(i)
    ensures var p, said := Processed(TextOf(items, whole)), Listing(items, 0, false);
            p.fault == said.fault && p.tokens == said.tokens
  {
    hide ParseOut, FineItem, Listing, Leaves;
    LinesSay(TextOf(items, whole), 0, items, whole, 0, false);
  }
}
