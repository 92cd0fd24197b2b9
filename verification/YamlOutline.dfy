/** Documents written line by line: tabs, a name, a colon and a value. The parser reads back
    exactly the lines, or finds the first one that is indented too far. */
module YamlOutline {
  import opened Positions
  import opened Sequences
  import opened Slices
  import opened StringReader
  import opened Yaml
  import opened YamlDocument
  import opened YamlTree

  function Tabs(n: nat): string {
    if n == 0 then "" else ['\t'] + Tabs(n - 1)
  }

  function Line(e: Entry): string {
    Tabs(e.depth) + (e.name + (":" + (" " + e.value + "\n")))
  }

  function Written(es: seq<Entry>): string {
    if es == [] then "" else Line(es[0]) + Written(es[1..])
  }

  /** What is read as a name up to a colon, with white space behind it perhaps. */
  predicate NameText(n: string) {
    n != "" && !Chars.IsSpace(n[0]) && forall c | c in n :: c != '#' && c != ':' && c != '\n'
  }

  predicate CleanName(n: string) {
    NameText(n) && !Chars.IsSpace(n[|n| - 1])
  }

  predicate CleanValue(v: string) {
    && (v != "" ==> !Chars.IsSpace(v[0]) && !Chars.IsSpace(v[|v| - 1]))
    && forall c | c in v :: c != '#' && c != '\n'
  }

  predicate Clean(e: Entry) {
    CleanName(e.name) && CleanValue(e.value)
  }

  /** A name may be one level deeper than the one before it, or as far out as it likes. */
  predicate MayFollow(prev: nat, can: bool, depth: nat) {
    depth <= prev || (can && depth == prev + 1)
  }

  predicate Stepwise(es: seq<Entry>, prev: nat, can: bool)
    decreases |es|
  {
    es != [] ==> MayFollow(prev, can, es[0].depth) && Stepwise(es[1..], es[0].depth, true)
  }

  // ----- the parts of a line

  lemma {:induction false} TabsAt(n: nat, k: nat)
    requires k < n
    ensures |Tabs(n)| == n && Tabs(n)[k] == '\t'
  {
    if k > 0 {
      TabsAt(n - 1, k - 1);
    } else if n > 1 {
      TabsAt(n - 1, 0);
    }
  }

  lemma TabsLength(n: nat)
    ensures |Tabs(n)| == n
  {
    if n > 0 {
      TabsAt(n, 0);
    }
  }

  lemma TabChar(s: string, j: nat, n: nat, k: nat, post: string)
    requires Rest(s, j, Tabs(n) + post) && k < n
    ensures j + n <= |s| && s[j + k] == '\t'
  {
    TabsAt(n, k);
    Behind(s, j, Tabs(n), post);
  }

  lemma {:induction false} TabsSkip(s: string, j: nat, n: nat, k: nat, post: string, prev: nat, can: bool)
    requires Rest(s, j, Tabs(n) + post) && k <= n
    ensures j + n <= |s| && ParseOut(s, j, j, 0, prev, can) == ParseOut(s, j + k, j + k, k, prev, can)
    decreases k
  {
    hide *;
    TabsLength(n);
    Behind(s, j, Tabs(n), post);
    if k > 0 {
      TabsSkip(s, j, n, k - 1, post, prev, can);
      TabChar(s, j, n, k - 1, post);
      ParseChar(s, j + k - 1, j + k - 1, k - 1, prev, can);
    }
  }

  lemma NameChar(s: string, v: nat, n: string, k: nat, post: string)
    requires Rest(s, v, n + post) && NameText(n) && k < |n|
    ensures v + |n| <= |s| && s[v + k] == n[k] && s[v + k] != '#' && s[v + k] != ':' && s[v + k] != '\n'
    ensures k == 0 ==> !Chars.IsSpace(s[v]) && s[v] != ' ' && s[v] != '\t'
  {
    Behind(s, v, n, post);
    assert n[k] in n;
  }

  lemma {:induction false} NameSkips(s: string, v: nat, n: string, k: nat, post: string, depth: nat, prev: nat,
                                     can: bool)
    requires Rest(s, v, n + post) && NameText(n) && k <= |n|
    ensures v + |n| <= |s| && ParseOut(s, v, v, depth, prev, can) == ParseOut(s, v, v + k, depth, prev, can)
    decreases k
  {
    hide *;
    Behind(s, v, n, post);
    if k > 0 {
      NameSkips(s, v, n, k - 1, post, depth, prev, can);
      NameChar(s, v, n, k - 1, post);
      ParseChar(s, v, v + k - 1, depth, prev, can);
    }
  }

  lemma ScanChar(s: string, i: nat, x: string, k: nat, post: string)
    requires Rest(s, i, x + post) && k < |x| && forall c | c in x :: c != '#' && c != '\n'
    ensures i + |x| <= |s| && s[i + k] != '#' && s[i + k] != '\n'
  {
    Behind(s, i, x, post);
    assert s[i + k] == x[k] && x[k] in x;
  }

  lemma {:induction false} ScanSkips(s: string, i: nat, x: string, k: nat, post: string)
    requires Rest(s, i, x + post) && 0 < k <= |x| && forall c | c in x :: c != '#' && c != '\n'
    ensures i + |x| <= |s| && Scanned(s, i, Slice(0, 0)) == Scanned(s, i + k, Slice(i, k))
    decreases k
  {
    hide Scanned, Rest;
    ScanChar(s, i, x, k - 1, post);
    if k == 1 {
      ScannedStep(s, i, Slice(0, 0));
    } else {
      ScanSkips(s, i, x, k - 1, post);
      ScannedStep(s, i + k - 1, Slice(i, k - 1));
    }
  }

  lemma Trimmed(v: string)
    requires CleanValue(v)
    ensures Chars.Trim(" " + v) == v
  {
    assert (" " + v)[1..] == v && Chars.IsSpace(' ');
    hide Chars.IsSpace;
    if v != "" {
      assert Chars.TrimLeft(v) == v && Chars.TrimRight(v) == v;
    }
  }

  lemma NoMarks(v: string)
    requires CleanValue(v)
    ensures forall c | c in " " + v :: c != '#' && c != '\n'
  {
  }

  lemma SliceText(s: string, i: nat, x: string)
    requires i + |x| <= |s| && s[i..i + |x|] == x
    ensures Before(Slice(i, |x|), |s|) && Text(s, Slice(i, |x|)) == x
  {
  }

  lemma ValueIs(s: string, i: nat, v: ValueScan, x: string)
    requires i <= |s| && Scanned(s, i, Slice(0, 0)) == v
    requires Before(v.value, |s|) && Text(s, v.value) == x
    ensures ValueText(s, i) == Chars.Trim(x) && ValuePiece(s, i).next == v.next
  {
    hide Scanned, Text, Chars.Trim;
  }

  lemma ValueScanned(s: string, i: nat, x: string, post: string)
    requires Rest(s, i, x + ("\n" + post)) && x != "" && forall c | c in x :: c != '#' && c != '\n'
    ensures i + |x| + 1 <= |s| && s[i..i + |x|] == x && Rest(s, i + |x| + 1, post)
    ensures Scanned(s, i, Slice(0, 0)) == ValueScan([], Slice(i, |x|), i + |x| + 1)
  {
    hide Scanned, Rest;
    Behind(s, i, x, "\n" + post);
    Behind(s, i + |x|, "\n", post);
    ScanSkips(s, i, x, |x|, "\n" + post);
    ScannedStep(s, i + |x|, Slice(i, |x|));
  }

  lemma ValueRead(s: string, i: nat, v: string, post: string)
    requires Rest(s, i, " " + v + ("\n" + post)) && CleanValue(v)
    ensures i + |v| + 2 <= |s| && ValueText(s, i) == v && ValuePiece(s, i).next == i + |v| + 2
    ensures Rest(s, i + |v| + 2, post)
  {
    hide *;
    NoMarks(v);
    ValueScanned(s, i, " " + v, post);
    SliceText(s, i, " " + v);
    ValueIs(s, i, ValueScan([], Slice(i, |v| + 1), i + |v| + 2), " " + v);
    Trimmed(v);
  }

  lemma LineText(e: Entry, post: string)
    ensures Line(e) + post == Tabs(e.depth) + (e.name + (":" + (" " + e.value + ("\n" + post))))
    ensures |Line(e)| == e.depth + |e.name| + |e.value| + 3
  {
    TabsLength(e.depth);
    assert Line(e) == Tabs(e.depth) + (e.name + (":" + (" " + e.value + "\n")));
    hide *;
    Assoc(Tabs(e.depth), e.name + (":" + (" " + e.value + "\n")), post);
    Assoc(e.name, ":" + (" " + e.value + "\n"), post);
    Assoc(":", " " + e.value + "\n", post);
    Assoc(" " + e.value, "\n", post);
  }

  lemma NameTrimmed(n: string)
    requires CleanName(n)
    ensures Chars.TrimRight(n) == n
  {
    Chars.Untrimmed(n);
  }

  /** One line, up to the end of its name. */
  lemma NameRead(s: string, j: nat, e: Entry, post: string, prev: nat, can: bool)
    requires Rest(s, j, Line(e) + post) && Clean(e)
    ensures var v, c := j + e.depth, j + e.depth + |e.name|;
            && c < |s| && s[c] == ':' && s[v..c] == e.name && Rest(s, c + 1, " " + e.value + ("\n" + post))
            && ParseOut(s, j, j, 0, prev, can) == ParseOut(s, v, c, e.depth, prev, can)
  {
    hide Line, Tabs, Rest, NameText, CleanValue, ParseOut;
    LineText(e, post);
    TabsLength(e.depth);
    var last := " " + e.value + ("\n" + post);
    var mid := e.name + (":" + last);
    TabsSkip(s, j, e.depth, e.depth, mid, prev, can);
    Behind(s, j, Tabs(e.depth), mid);
    NameSkips(s, j + e.depth, e.name, |e.name|, ":" + last, e.depth, prev, can);
    Behind(s, j + e.depth, e.name, ":" + last);
    Behind(s, j + e.depth + |e.name|, ":", last);
  }

  /** One line: it is an entry, unless it is indented too far. */
  lemma LineRead(s: string, j: nat, e: Entry, post: string, prev: nat, can: bool)
    requires Rest(s, j, Line(e) + post) && Clean(e)
    ensures j + |Line(e)| <= |s| && Rest(s, j + |Line(e)|, post)
    ensures var out := ParseOut(s, j, j, 0, prev, can);
            if MayFollow(prev, can, e.depth) then
              var rest := ParseOut(s, j + |Line(e)|, j + |Line(e)|, 0, e.depth, true);
              out.entries == [e] + rest.entries && out.fault == rest.fault
            else
              out.entries == [] && out.fault == InvalidIndention
  {
    hide Line, Rest, CleanName, CleanValue, ParseOut, ValuePiece, ValueText, Moves, Chars.TrimRight;
    LineText(e, post);
    NameRead(s, j, e, post, prev, can);
    var v, c := j + e.depth, j + e.depth + |e.name|;
    ParseColon(s, v, c, e.depth, prev, can);
    ValueRead(s, c + 1, e.value, post);
    NameTrimmed(e.name);
  }

  // ----- outlines

  lemma {:induction false} LinesRead(s: string, j: nat, es: seq<Entry>, prev: nat, can: bool)
    requires Rest(s, j, Written(es)) && forall e | e in es :: Clean(e)
    ensures var out := ParseOut(s, j, j, 0, prev, can);
            && out.entries <= es
            && (Stepwise(es, prev, can) ==> out.fault == Fine && out.entries == es)
            && (!Stepwise(es, prev, can) ==> out.fault == InvalidIndention && out.entries != es)
    decreases |es|
  {
    hide ParseOut, Line, Clean;
    if es == [] {
      assert j == |s|;
      ParseEnd(s, j, 0, prev, can);
    } else {
      hide Rest;
      LineRead(s, j, es[0], Written(es[1..]), prev, can);
      if MayFollow(prev, can, es[0].depth) {
        LinesRead(s, j + |Line(es[0])|, es[1..], es[0].depth, true);
        assert es == [es[0]] + es[1..];
      }
    }
  }

  /** A written outline parses if, and only if, no line is more than one level deeper than
      the line before it; what is read back then is the outline. */
  lemma OutlineReads(es: seq<Entry>)
    requires forall e | e in es :: Clean(e)
    ensures var p := Processed(Written(es));
            && (p.fault == Fine <==> Stepwise(es, 0, false))
            && (p.fault == Fine ==> p.entries == es)
            && (p.fault != Fine ==> p.fault == InvalidIndention)
  {
    LinesRead(Written(es), 0, es, 0, false);
    hide ParseOut, Written, Stepwise;
  }

  /** And the tree is the one that the outline draws. */
  lemma OutlineBuilds(es: seq<Entry>)
    requires (forall e | e in es :: Clean(e)) && Stepwise(es, 0, false)
    ensures var p := Processed(Written(es));
            && Runs(Initial(), p.tokens) && Ordered(Run(Initial(), p.tokens))
            && Walk(Run(Initial(), p.tokens)) == [Row(0, BLANK), Row(1, BLANK)] + RowsOf(es)
  {
    hide *;
    OutlineReads(es);
    DocumentRuns(Written(es));
  }
}
