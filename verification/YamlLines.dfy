/** How lines are read that a plain outline does not have: blank lines that hold tabs, and
    comments behind a value. Neither is harmless, and here is exactly when each is. */
module YamlLines {
  import opened Positions
  import opened Sequences
  import opened Slices
  import opened StringReader
  import opened Yaml
  import opened YamlOutline
  import opened Chars

  // ----- tabs on blank lines

  /** White space that may stand in front of a name. */
  predicate Blank(x: string) {
    forall c | c in x :: IsSpace(c) && c != ' '
  }

  function TabCount(x: string): nat {
    if x == "" then 0 else TabCount(x[..|x| - 1]) + if x[|x| - 1] == '\t' then 1 else 0
  }

  lemma {:induction false} TabsAdd(x: string, y: string)
    ensures TabCount(x + y) == TabCount(x) + TabCount(y)
  {
    if y == "" {
      assert x + y == x;
    } else {
      assert (x + y)[..|x + y| - 1] == x + y[..|y| - 1];
      TabsAdd(x, y[..|y| - 1]);
    }
  }

  lemma {:induction false} NoTabs(x: string)
    ensures TabCount(x) == 0 <==> '\t' !in x
  {
    if x != "" {
      NoTabs(x[..|x| - 1]);
      assert x == x[..|x| - 1] + [x[|x| - 1]];
    }
  }

  lemma BlankChar(s: string, j: nat, x: string, k: nat, post: string)
    requires Rest(s, j, x + post) && Blank(x) && k < |x|
    ensures j + |x| <= |s| && s[j + k] == x[k] && IsSpace(x[k]) && x[k] != ' ' && x[k] != '#' && x[k] != ':'
  {
    Behind(s, j, x, post);
    assert x[k] in x;
  }

  /** Every tab of a blank stretch counts for the depth of the next name, line breaks
      between them or not. */
  lemma {:induction false} BlankSkips(s: string, j: nat, x: string, k: nat, post: string, depth: nat, prev: nat,
                                      can: bool)
    requires Rest(s, j, x + post) && Blank(x) && k <= |x|
    ensures j + |x| <= |s|
    ensures ParseOut(s, j, j, depth, prev, can) == ParseOut(s, j + k, j + k, depth + TabCount(x[..k]), prev, can)
    decreases k
  {
    Behind(s, j, x, post);
    hide ParseOut, Rest, Blank, IsSpace;
    if k > 0 {
      BlankSkips(s, j, x, k - 1, post, depth, prev, can);
      BlankChar(s, j, x, k - 1, post);
      ParseChar(s, j + k - 1, j + k - 1, depth + TabCount(x[..k - 1]), prev, can);
      assert x[..k][..k - 1] == x[..k - 1];
    }
  }

  /** Where the lines before a name end and its own begins. */
  predicate OwnLine(before: string, own: string) {
    Blank(before) && Blank(own) && '\n' !in own && (before != "" ==> before[|before| - 1] == '\n')
  }

  lemma NameBehind(s: string, j: nat, x: string, n: string, post: string, prev: nat, can: bool)
    requires Rest(s, j, x + (n + (":" + post))) && Blank(x) && NameText(n)
    ensures var v, c := j + |x|, j + |x| + |n|;
            && c < |s| && s[c] == ':' && s[v..c] == n
            && ParseOut(s, j, j, 0, prev, can) == ParseOut(s, v, c, TabCount(x), prev, can)
  {
    hide *;
    Behind(s, j, x, n + (":" + post));
    BlankSkips(s, j, x, |x|, n + (":" + post), 0, prev, can);
    assert x[..|x|] == x;
    Behind(s, j + |x|, n, ":" + post);
    Behind(s, j + |x| + |n|, ":", post);
    NameSkips(s, j + |x|, n, |n|, ":" + post, TabCount(x), prev, can);
  }

  /** What is committed for a name behind a blank stretch. */
  lemma NameCommitted(s: string, j: nat, x: string, n: string, post: string, prev: nat, can: bool)
    requires Rest(s, j, x + (n + (":" + post))) && Blank(x) && NameText(n)
    ensures var out := ParseOut(s, j, j, 0, prev, can);
            if MayFollow(prev, can, TabCount(x)) then
              out.entries != [] && out.entries[0].depth == TabCount(x) && out.entries[0].name == TrimRight(n)
            else
              out.entries == [] && out.fault == InvalidIndention
  {
    hide ParseOut, Rest, Blank, NameText, TabCount, TrimRight, ValuePiece, ValueText, Moves;
    NameBehind(s, j, x, n, post, prev, can);
    ParseColon(s, j + |x|, j + |x| + |n|, TabCount(x), prev, can);
  }

  /** A name behind blank lines, counted from where the last name or comment ended: it gets
      the tabs of all of them as its depth, which are those of its own line exactly if the
      blank lines hold no tab. */
  lemma DepthCommitted(s: string, j: nat, before: string, own: string, n: string, post: string, prev: nat, can: bool)
    requires OwnLine(before, own) && NameText(n) && Rest(s, j, before + own + (n + (":" + post)))
    ensures var depth := TabCount(before + own);
            var out := ParseOut(s, j, j, 0, prev, can);
            if MayFollow(prev, can, depth) then
              && out.entries != [] && out.entries[0].depth == depth && out.entries[0].name == TrimRight(n)
              && (out.entries[0].depth == TabCount(own) <==> '\t' !in before)
            else
              out.entries == [] && out.fault == InvalidIndention
  {
    TabsAdd(before, own);
    NoTabs(before);
    assert Blank(before + own);
    hide ParseOut, Rest, Blank, NameText, TabCount, TrimRight;
    NameCommitted(s, j, before + own, n, post, prev, can);
  }

  // ----- comments behind a value

  /** The end of the text of a value on its line. */
  function PlainEnd(s: string, i: nat): (j: nat)
    requires i <= |s|
    ensures i <= j <= |s| && (j < |s| ==> s[j] == '#' || s[j] == '\n')
    ensures forall k | i <= k < j :: s[k] != '#' && s[k] != '\n'
    decreases |s| - i
  {
    if i == |s| || s[i] == '#' || s[i] == '\n' then i else PlainEnd(s, i + 1)
  }

  /** Behind a comment: only further comments from the start of the line on, and then an
      empty line or the end. */
  predicate NothingBehind(s: string, k: nat)
    requires k <= |s|
    decreases |s| - k
  {
    k == |s| || s[k] == '\n' || (s[k] == '#' && NothingBehind(s, CommentPiece(s, k + 1).next))
  }

  predicate SpaceOnly(s: string, i: nat, j: nat)
    requires i <= j <= |s|
  {
    forall k | i <= k < j :: IsSpace(s[k])
  }

  /** The value that starts at i is white space only. */
  predicate Void(s: string, i: nat)
    requires i <= |s|
    decreases |s| - i
  {
    var j := PlainEnd(s, i);
    && SpaceOnly(s, i, j)
    && (j < |s| && s[j] == '#' ==>
          var k := CommentPiece(s, j + 1).next;
          if i < j then NothingBehind(s, k) else Void(s, k))
  }

  /** The value is what stands on its line, up to a comment. */
  predicate Harmless(s: string, i: nat)
    requires i <= |s|
  {
    var j := PlainEnd(s, i);
    j < |s| && s[j] == '#' ==>
      var k := CommentPiece(s, j + 1).next;
      if i < j then NothingBehind(s, k) else Void(s, k)
  }

  /** Once a value has begun, the scan lets it grow by all that it reads behind it. */
  lemma {:induction false} ScanGrows(s: string, k: nat, v: Slice)
    requires k <= |s| && Before(v, k) && v.len > 0
    ensures var r := Scanned(s, k, v).value; r.start == v.start && r.len >= v.len
    ensures Scanned(s, k, v).value == v <==> NothingBehind(s, k)
    decreases |s| - k
  {
    hide CommentPiece;
    ScannedStep(s, k, v);
    if k < |s| && s[k] == '#' {
      ScanGrows(s, CommentPiece(s, k + 1).next, v);
    } else if k < |s| && s[k] != '\n' {
      ScanGrows(s, k + 1, Grown(v, k));
    }
  }

  /** Up to the end of the line's text, the scan reads just that. */
  lemma {:induction false} ScanPlain(s: string, i: nat, k: nat)
    requires i <= |s| && i <= k <= PlainEnd(s, i)
    ensures Scanned(s, i, Slice(0, 0)) == Scanned(s, k, if i == k then Slice(0, 0) else Slice(i, k - i))
    decreases k
  {
    hide Scanned;
    if i < k {
      ScanPlain(s, i, k - 1);
      ScannedStep(s, k - 1, if i == k - 1 then Slice(0, 0) else Slice(i, k - 1 - i));
    }
  }

  // ----- what trimming leaves

  lemma TrimParts(t: string, c: char)
    ensures c in t && !IsSpace(c) ==> c in Trim(t)
    ensures c in Trim(t) ==> c in t
  {
    TrimLeftIs(t);
    var u := TrimLeft(t);
    TrimRightIs(u);
    var w := TrimRight(u);
    hide IsSpace, TrimLeft, TrimRight;
    assert t == t[..|t| - |u|] + u && u == w + u[|w|..];
  }

  lemma TrimSpace(t: string)
    ensures Trim(t) == "" <==> forall c | c in t :: IsSpace(c)
  {
    if Trim(t) != "" {
      TrimLeftIs(t);
      TrimRightIs(TrimLeft(t));
      var c := Trim(t)[|Trim(t)| - 1];
      TrimParts(t, c);
    }
    if c :| c in t && !IsSpace(c) {
      TrimParts(t, c);
    }
  }

  // ----- the value that is read

  lemma ValueOf(s: string, i: nat, v: Slice)
    requires i <= |s| && Before(v, |s|) && Scanned(s, i, Slice(0, 0)).value == v
    ensures ValueText(s, i) == Trim(s[v.start..v.start + v.len])
  {
    hide Scanned, Trim;
  }

  /** No comment behind the value. */
  lemma ValueAlone(s: string, i: nat)
    requires i <= |s| && (PlainEnd(s, i) == |s| || s[PlainEnd(s, i)] == '\n')
    ensures ValueText(s, i) == Trim(s[i..PlainEnd(s, i)])
  {
    var j := PlainEnd(s, i);
    hide Scanned, Trim, PlainEnd, ValueText;
    ScanPlain(s, i, j);
    ScannedStep(s, j, if i == j then Slice(0, 0) else Slice(i, j - i));
    ValueOf(s, i, if i == j then Slice(0, 0) else Slice(i, j - i));
  }

  /** A comment in place of the value. */
  lemma CommentFirst(s: string, i: nat)
    requires i < |s| && s[i] == '#'
    ensures ValueText(s, i) == ValueText(s, CommentPiece(s, i + 1).next)
  {
    hide Scanned, CommentPiece, Trim;
    ScannedStep(s, i, Slice(0, 0));
  }

  /** A comment behind a value: if the scan goes on, the value takes in the comment mark. */
  lemma CommentBehind(s: string, i: nat) returns (n: nat)
    requires i <= |s| && i < PlainEnd(s, i) < |s| && s[PlainEnd(s, i)] == '#'
    ensures i + n <= |s| && ValueText(s, i) == Trim(s[i..i + n])
    ensures var j := PlainEnd(s, i); if NothingBehind(s, CommentPiece(s, j + 1).next) then n == j - i else n > j - i
  {
    var j := PlainEnd(s, i);
    var k := CommentPiece(s, j + 1).next;
    var v := Slice(i, j - i);
    hide Scanned, CommentPiece, Trim, PlainEnd, NothingBehind, ValueText;
    ScanPlain(s, i, j);
    ScannedStep(s, j, v);
    ScanGrows(s, k, v);
    var w := Scanned(s, k, v).value;
    ValueOf(s, i, w);
    n := w.len;
  }

  /** The mark and what stands behind it stay in the value. */
  lemma MarkStays(s: string, i: nat, j: nat, n: nat)
    requires i < j < i + n <= |s| && s[j] == '#'
    ensures '#' in Trim(s[i..i + n])
  {
    assert s[i..i + n][j - i] == '#';
    TrimParts(s[i..i + n], '#');
  }

  lemma NoMark(s: string, i: nat)
    requires i <= |s|
    ensures '#' !in s[i..PlainEnd(s, i)] && '#' !in Trim(s[i..PlainEnd(s, i)])
  {
    TrimParts(s[i..PlainEnd(s, i)], '#');
  }

  lemma SpaceIn(s: string, i: nat, j: nat, n: nat)
    requires i <= j && i + n <= |s| && j <= |s|
    ensures j == i + n ==> (Trim(s[i..i + n]) == "" <==> SpaceOnly(s, i, j))
    ensures j <= i + n && Trim(s[i..i + n]) == "" ==> SpaceOnly(s, i, j)
  {
    TrimSpace(s[i..i + n]);
    assert forall k | i <= k < j :: s[k] == s[i..j][k - i];
    assert forall k | i <= k < i + n :: s[k] == s[i..i + n][k - i];
  }

  lemma {:induction false} VoidExact(s: string, i: nat)
    requires i <= |s|
    ensures Void(s, i) <==> ValueText(s, i) == ""
    decreases |s| - i
  {
    var j := PlainEnd(s, i);
    assert i == j ==> SpaceOnly(s, i, j);
    hide ValueText, Trim, IsSpace, CommentPiece, SpaceOnly, PlainEnd, NothingBehind;
    if j == |s| || s[j] == '\n' {
      ValueAlone(s, i);
      SpaceIn(s, i, j, j - i);
    } else if i == j {
      CommentFirst(s, i);
      VoidExact(s, CommentPiece(s, j + 1).next);
    } else {
      var n := CommentBehind(s, i);
      SpaceIn(s, i, j, n);
      if n > j - i {
        MarkStays(s, i, j, n);
      }
    }
  }

  /** The value is the trimmed text of its line up to the first comment mark exactly if no
      comment follows it, or the text before the mark is not empty and the lines behind the
      comment bring nothing, or it is empty and they bring white space only. */
  lemma ValueExact(s: string, i: nat)
    requires i <= |s|
    ensures ValueText(s, i) == Trim(s[i..PlainEnd(s, i)]) <==> Harmless(s, i)
  {
    var j := PlainEnd(s, i);
    assert i == j ==> s[i..j] == "" == Trim("");
    hide ValueText, Trim, CommentPiece, PlainEnd, NothingBehind, Void;
    if j == |s| || s[j] == '\n' {
      ValueAlone(s, i);
    } else if i == j {
      CommentFirst(s, i);
      VoidExact(s, CommentPiece(s, j + 1).next);
    } else {
      var n := CommentBehind(s, i);
      NoMark(s, i);
      if n > j - i {
        MarkStays(s, i, j, n);
      }
    }
  }

  // ----- a line behind a blank stretch

  lemma {:induction false} TabsCount(n: nat)
    ensures TabCount(Tabs(n)) == n && Blank(Tabs(n))
  {
    if n > 0 {
      TabsCount(n - 1);
      TabsAdd(['\t'], Tabs(n - 1));
      assert TabCount(['\t']) == 1;
    }
  }

  lemma BlankJoin(x: string, y: string)
    requires Blank(x) && Blank(y)
    ensures Blank(x + y)
  {
  }

  /** A written line is read with the tabs of the blank stretch on top of its own. */
  lemma LineBehindBlank(s: string, j: nat, x: string, e: Entry, post: string, prev: nat, can: bool)
    requires Rest(s, j, x + (Line(e) + post)) && Blank(x) && Clean(e)
    ensures j + |x| + |Line(e)| <= |s| && Rest(s, j + |x| + |Line(e)|, post)
    ensures var depth, next := TabCount(x) + e.depth, j + |x| + |Line(e)|;
            var out := ParseOut(s, j, j, 0, prev, can);
            if MayFollow(prev, can, depth) then
              var rest := ParseOut(s, next, next, 0, depth, true);
              out.entries == [Entry(depth, e.name, e.value)] + rest.entries && out.fault == rest.fault
            else
              out.entries == [] && out.fault == InvalidIndention
  {
    hide Line, Tabs, Rest, CleanValue, Blank, TabCount, ParseOut, ValuePiece, ValueText, Moves, TrimRight;
    LineText(e, post);
    TabsLength(e.depth);
    TabsCount(e.depth);
    TabsAdd(x, Tabs(e.depth));
    BlankJoin(x, Tabs(e.depth));
    NameTrimmed(e.name);
    hide Clean, CleanName, NameText;
    var last := " " + e.value + ("\n" + post);
    Assoc(x, Tabs(e.depth), e.name + (":" + last));
    CleanParts(e);
    NameBehind(s, j, x + Tabs(e.depth), e.name, last, prev, can);
    var v := j + |x| + e.depth;
    BehindColon(s, j, x + Tabs(e.depth), e.name, last);
    ParseColon(s, v, v + |e.name|, TabCount(x) + e.depth, prev, can);
    ValueRead(s, v + |e.name| + 1, e.value, post);
  }

  lemma CleanParts(e: Entry)
    requires Clean(e)
    ensures NameText(e.name) && CleanName(e.name) && CleanValue(e.value)
  {
  }

  lemma BehindColon(s: string, j: nat, x: string, n: string, last: string)
    requires Rest(s, j, x + (n + (":" + last)))
    ensures Rest(s, j + |x| + |n| + 1, last)
  {
    hide *;
    Behind(s, j, x, n + (":" + last));
    Behind(s, j + |x|, n, ":" + last);
    Behind(s, j + |x| + |n|, ":", last);
  }

  lemma Whole(s: string)
    ensures Rest(s, 0, "" + s) && Blank("") && TabCount("") == 0
  {
  }

  /** Two lines with a blank stretch between them. */
  lemma TwoLines(e: Entry, x: string, f: Entry)
    requires Clean(e) && e.depth == 0 && Blank(x) && Clean(f) && MayFollow(0, true, TabCount(x) + f.depth)
    ensures var p := Processed(Line(e) + (x + (Line(f) + "")));
            p.fault == Fine && p.entries == [e, Entry(TabCount(x) + f.depth, f.name, f.value)]
  {
    var s := Line(e) + (x + (Line(f) + ""));
    Whole(s);
    hide Rest, Line, Clean, Blank, TabCount, ParseOut;
    LineBehindBlank(s, 0, "", e, x + (Line(f) + ""), 0, false);
    SecondLine(s, |Line(e)|, x, f);
  }

  /** The last line of a document. */
  lemma SecondLine(s: string, j: nat, x: string, f: Entry)
    requires Rest(s, j, x + (Line(f) + "")) && Blank(x) && Clean(f) && MayFollow(0, true, TabCount(x) + f.depth)
    ensures var out := ParseOut(s, j, j, 0, 0, true);
            out.fault == Fine && out.entries == [Entry(TabCount(x) + f.depth, f.name, f.value)]
  {
    hide Line, Clean, Blank, TabCount, ParseOut;
    LineBehindBlank(s, j, x, f, "", 0, true);
    ParseEnd(s, |s|, 0, TabCount(x) + f.depth, true);
  }

  /** The name b stands at the start of its line and is committed below a. */
  lemma TabOnBlankLine()
    ensures var p := Processed("a: \n" + ("\t\n" + ("b: c\n" + "")));
            p.fault == Fine && p.entries == [Entry(0, "a", ""), Entry(1, "b", "c")]
  {
    var e, f := Entry(0, "a", ""), Entry(0, "b", "c");
    assert Line(e) == "a: \n" && Line(f) == "b: c\n";
    assert "\t\n"[..1] == "\t" && TabCount("\t") == 1;
    assert TabCount("\t\n") == 1 && Blank("\t\n");
    hide Processed, Line, TabCount;
    TwoLines(e, "\t\n", f);
  }

  // ----- a line behind a comment

  /** A value that has begun grows by a stretch without marks. */
  lemma {:induction false} ScanThrough(s: string, k: nat, x: string, m: nat, post: string, v: Slice)
    requires Rest(s, k, x + post) && m <= |x| && Before(v, k) && v.len > 0 && forall c | c in x :: c != '#' && c != '\n'
    ensures k + |x| <= |s| && Scanned(s, k, v) == Scanned(s, k + m, Slice(v.start, v.len + m))
    decreases m
  {
    hide Scanned, Rest;
    Behind(s, k, x, post);
    if m > 0 {
      ScanThrough(s, k, x, m - 1, post, v);
      ScanChar(s, k, x, m - 1, post);
      ScannedStep(s, k + m - 1, Slice(v.start, v.len + m - 1));
    }
  }

  predicate Unmarked(x: string) {
    forall c | c in x :: c != '#' && c != '\n'
  }

  lemma UnmarkedIs(x: string)
    requires Unmarked(x)
    ensures forall c | c in x :: c != '#' && c != '\n'
  {
  }

  lemma {:induction false} LineEndSkips(s: string, k: nat, c: string, m: nat, post: string)
    requires Rest(s, k, c + post) && m <= |c| && '\n' !in c
    ensures k + |c| <= |s| && LineEnd(s, k) == LineEnd(s, k + m)
    decreases m
  {
    hide LineEnd, Rest;
    Behind(s, k, c, post);
    if m > 0 {
      LineEndSkips(s, k, c, m - 1, post);
      LineEndStep(s, k + m - 1);
    }
  }

  lemma CommentAt(s: string, k: nat, c: string, post: string)
    requires Rest(s, k, c + ("\n" + post)) && '\n' !in c
    ensures k + |c| + 1 <= |s| && CommentPiece(s, k).next == k + |c| + 1 && Rest(s, k + |c| + 1, post)
  {
    hide LineEnd, Rest;
    Behind(s, k, c, "\n" + post);
    Behind(s, k + |c|, "\n", post);
    LineEndSkips(s, k, c, |c|, "\n" + post);
    LineEndStep(s, k + |c|);
  }

  /** The scan of a value with a comment and a line behind it. */
  lemma SwallowScan(s: string, i: nat, n: nat, l: nat, y: string, post: string)
    requires Rest(s, l, y + ("\n" + post)) && Unmarked(y)
    requires 0 < n && i + n < l <= |s| && s[i + n] == '#' && CommentPiece(s, i + n + 1).next == l
    requires Scanned(s, i, Slice(0, 0)) == Scanned(s, i + n, Slice(i, n))
    ensures l + |y| + 1 <= |s| && Rest(s, l + |y| + 1, post)
    ensures var r := Scanned(s, i, Slice(0, 0)); r.value == Slice(i, n + |y|) && r.next == l + |y| + 1
  {
    hide Scanned, Rest, Unmarked, CommentPiece;
    UnmarkedIs(y);
    Behind(s, l, y, "\n" + post);
    Behind(s, l + |y|, "\n", post);
    ScannedStep(s, i + n, Slice(i, n));
    ScanThrough(s, l, y, |y|, "\n" + post, Slice(i, n));
    ScannedStep(s, l + |y|, Slice(i, n + |y|));
  }

  /** The scan of a value up to the end of its comment. */
  lemma CommentFront(s: string, i: nat, x: string, c: string, behind: string)
    requires Rest(s, i, x + ("#" + (c + ("\n" + behind)))) && Unmarked(x) && x != "" && '\n' !in c
    ensures var k := i + |x|; var l := k + |c| + 2;
            && l <= |s| && s[k] == '#' && CommentPiece(s, k + 1).next == l && Rest(s, l, behind)
            && Scanned(s, i, Slice(0, 0)) == Scanned(s, k, Slice(i, |x|))
  {
    var mark := "#" + (c + ("\n" + behind));
    hide Scanned, Rest, CommentPiece, Unmarked;
    UnmarkedIs(x);
    Behind(s, i, x, mark);
    ScanSkips(s, i, x, |x|, mark);
    MarkRead(s, i + |x|, c, behind);
  }

  lemma MarkRead(s: string, k: nat, c: string, behind: string)
    requires Rest(s, k, "#" + (c + ("\n" + behind))) && '\n' !in c
    ensures var l := k + |c| + 2; l <= |s| && s[k] == '#' && CommentPiece(s, k + 1).next == l && Rest(s, l, behind)
  {
    hide Rest, CommentPiece;
    Behind(s, k, "#", c + ("\n" + behind));
    CommentAt(s, k + 1, c, behind);
  }

  lemma ValueTaken(s: string, i: nat, n: nat)
    requires i + n <= |s| && Scanned(s, i, Slice(0, 0)).value == Slice(i, n)
    ensures ValueText(s, i) == Trim(s[i..i + n]) && ValuePiece(s, i).next == Scanned(s, i, Slice(0, 0)).next
  {
    hide Scanned, Trim;
  }

  /** The line y behind a comment is read into the value, which becomes longer by its length:
      it is the text x, the comment with its mark, and what is left of y. */
  lemma CommentSwallows(s: string, i: nat, x: string, c: string, y: string, post: string)
    requires Rest(s, i, x + ("#" + (c + ("\n" + (y + ("\n" + post))))))
    requires Unmarked(x) && x != "" && '\n' !in c && Unmarked(y)
    ensures var next := i + |x| + |c| + |y| + 3;
            next <= |s| && ValuePiece(s, i).next == next && Rest(s, next, post)
    ensures ValueText(s, i) == Trim(s[i..i + |x| + |y|])
  {
    hide Rest, Scanned, ValuePiece, ValueText, CommentPiece, Unmarked, Trim;
    CommentFront(s, i, x, c, y + ("\n" + post));
    SwallowScan(s, i, |x|, i + |x| + |c| + 2, y, post);
    ValueTaken(s, i, |x| + |y|);
  }

  /** The text of the next line, without its line end. */
  function Bare(f: Entry): string {
    Tabs(f.depth) + (f.name + (":" + (" " + f.value)))
  }

  lemma BareLine(f: Entry)
    requires Clean(f)
    ensures Line(f) == Bare(f) + "\n" && |Line(f)| == |Bare(f)| + 1
    ensures forall c | c in Bare(f) :: c != '#' && c != '\n'
  {
    var d, n, v := Tabs(f.depth), f.name, " " + f.value;
    TabsOnly(f.depth);
    hide Tabs;
    assert Line(f) == d + (n + (":" + (v + "\n")));
    Assoc(":", v, "\n");
    Assoc(n, ":" + v, "\n");
    Assoc(d, n + (":" + v), "\n");
  }

  lemma {:induction false} TabsOnly(n: nat)
    ensures forall c | c in Tabs(n) :: c == '\t'
  {
    if n > 0 {
      TabsOnly(n - 1);
    }
  }

  lemma BareText(e: Entry, post: string)
    ensures Bare(e) + post == Tabs(e.depth) + (e.name + (":" + (" " + e.value + post)))
    ensures |Bare(e)| == e.depth + |e.name| + |e.value| + 2
  {
    TabsLength(e.depth);
    hide Tabs;
    Assoc(":", " " + e.value, post);
    Assoc(e.name, ":" + (" " + e.value), post);
    Assoc(Tabs(e.depth), e.name + (":" + (" " + e.value)), post);
  }

  lemma ValueUnmarked(e: Entry)
    requires Clean(e)
    ensures Unmarked(" " + e.value) && " " + e.value != "" && NameText(e.name) && TrimRight(e.name) == e.name
  {
    NameTrimmed(e.name);
    hide IsSpace, TrimRight;
  }

  /** A written line with a comment behind its value: the line f that follows is read into
      the value, no entry is made of it, and reading goes on behind it. */
  lemma LineLost(s: string, j: nat, e: Entry, c: string, f: Entry, post: string, prev: nat, can: bool)
    requires Rest(s, j, Bare(e) + ("#" + (c + ("\n" + (Line(f) + post)))))
    requires Clean(e) && Clean(f) && '\n' !in c && MayFollow(prev, can, e.depth)
    ensures var v, next := j + e.depth + |e.name| + 1, j + |Bare(e)| + |c| + 2 + |Line(f)|;
            && next <= |s| && v + |e.value| + |Line(f)| <= |s| && Rest(s, next, post)
            && var out, rest := ParseOut(s, j, j, 0, prev, can), ParseOut(s, next, next, 0, e.depth, true);
            && out.entries == [Entry(e.depth, e.name, Trim(s[v..v + |e.value| + |Line(f)|]))] + rest.entries
            && out.fault == rest.fault
  {
    hide Line, Bare, Tabs, Rest, Clean, TabCount, Blank, ParseOut, ValuePiece, ValueText, Moves, TrimRight, Trim,
         Unmarked, NameText;
    var v := j + e.depth + |e.name| + 1;
    var mark := "#" + (c + ("\n" + (Bare(f) + ("\n" + post))));
    BareLine(f);
    Assoc(Bare(f), "\n", post);
    BareText(e, mark);
    TabsLength(e.depth);
    TabsCount(e.depth);
    ValueUnmarked(e);
    BareUnmarked(f);
    NameBehind(s, j, Tabs(e.depth), e.name, " " + e.value + mark, prev, can);
    BehindColon(s, j, Tabs(e.depth), e.name, " " + e.value + mark);
    ParseColon(s, j + e.depth, v - 1, e.depth, prev, can);
    CommentSwallows(s, v, " " + e.value, c, Bare(f), post);
  }

  lemma BareUnmarked(f: Entry)
    requires Clean(f)
    ensures Unmarked(Bare(f))
  {
    BareLine(f);
    hide Bare;
  }

  /** The comment stays in the value of a, and b is no entry. */
  lemma LineBehindComment()
    ensures var p := Processed("a: x" + ("#" + ("c" + ("\n" + ("b: y\n" + "")))));
            p.fault == Fine && p.entries == [Entry(0, "a", "x#c\nb")]
  {
    var e, f := Entry(0, "a", "x"), Entry(0, "b", "y");
    var s := "a: x" + ("#" + ("c" + ("\n" + ("b: y\n" + ""))));
    TrimmedHere();
    LinesHere();
    hide Bare, Line, ParseOut, Trim, Clean;
    LineLost(s, 0, e, "c", f, "", 0, false);
    ParseEnd(s, |s|, 0, 0, true);
  }

  lemma TrimmedHere()
    ensures Trim(" x#c\nb") == "x#c\nb" && Clean(Entry(0, "a", "x")) && Clean(Entry(0, "b", "y"))
  {
    assert " x#c\nb"[1..] == "x#c\nb";
  }

  lemma LinesHere()
    ensures Bare(Entry(0, "a", "x")) == "a: x" && Line(Entry(0, "b", "y")) == "b: y\n"
    ensures ("a: x" + ("#" + ("c" + ("\n" + ("b: y\n" + "")))))[2..8] == " x#c\nb"
  {
  }
}
