/** The parser drives the builder: the tree of every document that parses has the shape of
    its indentation. */
module YamlDocument {
  import opened Slices
  import opened StringReader
  import opened Yaml
  import opened YamlTree

  // ----- what a tree says, node by node

  datatype Row = Row(level: nat, data: Data)

  ghost function RowAt(t: Shape, i: nat): Row
    requires Sound(t) && i < |t.kids|
  {
    Row(Level(t.parents, i), t.items[i])
  }

  /** The nodes in the order they were added. */
  ghost function Rows(t: Shape): seq<Row>
    requires Sound(t)
  {
    seq(|t.kids|, i requires 0 <= i < |t.kids| => RowAt(t, i))
  }

  /** The nodes in preorder. */
  ghost function Walk(t: Shape): seq<Row>
    requires Sound(t) && Ordered(t)
  {
    var p := Preorder(t.kids, 0);
    seq(|p|, k requires 0 <= k < |p| => RowAt(t, p[k]))
  }

  lemma WalkIsRows(t: Shape)
    requires Sound(t) && Ordered(t)
    ensures Walk(t) == Rows(t)
  {
  }

  /** The node of a name: below the root and the node of Initialize, at its depth. A name
      without a value is a section. */
  function RowOf(e: Entry): Row {
    Row(e.depth + 2, if e.value == "" then Data(Section, e.name, "") else Data(Item, e.name, e.value))
  }

  function RowsOf(es: seq<Entry>): seq<Row> {
    seq(|es|, k requires 0 <= k < |es| => RowOf(es[k]))
  }

  /** Between two names: the builder is one level below the depth committed last. */
  ghost predicate Between(t: Shape, prev: nat, can: bool) {
    && Sound(t) && Ordered(t)
    && Level(t.parents, t.cur) == prev + 1
    && (can ==> HasKids(t))
  }

  // ----- single tokens

  lemma NameRows(t: Shape, data: Data)
    requires Sound(t)
    ensures var r := WithChild(t, data);
            && Sound(r) && HasKids(r) && Last(r) == |t.kids| && Level(r.parents, r.cur) == Level(t.parents, t.cur)
            && Rows(r) == Rows(t) + [Row(Level(t.parents, t.cur) + 1, data)]
  {
    var r := WithChild(t, data);
    forall i | 0 <= i < |t.kids|
      ensures Level(r.parents, i) == Level(t.parents, i)
    {
      LevelStays(t.parents, t.cur, i);
    }
  }

  lemma MoveRows(t: Shape, token: Token)
    requires Sound(t) && Accepts(t, token) && token.kind in {Enter, Leave}
    ensures var r := Step(t, token);
            && Rows(r) == Rows(t)
            && Level(r.parents, r.cur) == Level(t.parents, t.cur) + (if token.kind == Enter then 1 else -1)
  {
  }

  lemma {:induction false} LeavesRun(t: Shape, n: nat)
    requires Sound(t) && Ordered(t) && n <= Level(t.parents, t.cur)
    ensures Runs(t, Leaves(n))
    ensures var r := Run(t, Leaves(n));
            Ordered(r) && Rows(r) == Rows(t) && Level(r.parents, r.cur) == Level(t.parents, t.cur) - n
    decreases n
  {
    if n > 0 {
      var token := Token(Leave, "");
      StepOrdered(t, token);
      MoveRows(t, token);
      LeavesRun(Step(t, token), n - 1);
      assert Leaves(n)[1..] == Leaves(n - 1);
    }
  }

  lemma MovesRun(t: Shape, prev: nat, depth: nat, can: bool)
    requires Between(t, prev, can) && (depth <= prev || (can && depth == prev + 1))
    ensures Runs(t, Moves(prev, depth))
    ensures var r := Run(t, Moves(prev, depth)); Between(r, depth, false) && Rows(r) == Rows(t)
  {
    if depth > prev {
      var token := Token(Enter, "");
      RunOne(t, token);
      StepOrdered(t, token);
      MoveRows(t, token);
    } else {
      LeavesRun(t, prev - depth);
    }
  }

  ghost predicate Comments(tokens: seq<Token>) {
    forall k | 0 <= k < |tokens| :: tokens[k].kind == Comment
  }

  lemma {:induction false} CommentsRun(t: Shape, tokens: seq<Token>)
    requires Sound(t) && Comments(tokens)
    ensures Runs(t, tokens) && Run(t, tokens) == t
    decreases |tokens|
  {
    if tokens != [] {
      assert tokens[0].kind == Comment;
      CommentsRun(t, tokens[1..]);
    }
  }

  lemma {:induction false} ScannedComments(s: string, j: nat, value: Slice)
    requires j <= |s| && Before(value, j)
    ensures Comments(Scanned(s, j, value).tokens)
    decreases |s| - j
  {
    hide LineEnd;
    if j < |s| && s[j] == '#' {
      ScannedComments(s, CommentPiece(s, j + 1).next, value);
    } else if j < |s| && s[j] != '\n' {
      ScannedComments(s, j + 1, Grown(value, j));
    }
  }

  // ----- the balance of Enter and Leave

  /** How many sections are open behind the tokens; negative once one too many is left. */
  function After(tokens: seq<Token>, open: nat): int
    decreases |tokens|
  {
    if tokens == [] then open
    else if tokens[0].kind == Enter then After(tokens[1..], open + 1)
    else if tokens[0].kind != Leave then After(tokens[1..], open)
    else if open == 0 then -1
    else After(tokens[1..], open - 1)
  }

  lemma {:induction false} AfterJoin(a: seq<Token>, b: seq<Token>, open: nat)
    requires After(a, open) >= 0
    ensures After(a + b, open) == After(b, After(a, open))
    decreases |a|
  {
    if a == [] {
      assert a + b == b;
    } else {
      assert (a + b)[1..] == a[1..] + b;
      AfterJoin(a[1..], b, if a[0].kind == Enter then open + 1 else if a[0].kind == Leave then open - 1 else open);
    }
  }

  lemma {:induction false} AfterLeaves(n: nat, open: nat)
    requires n <= open
    ensures After(Leaves(n), open) == open - n
    decreases n
  {
    if n > 0 {
      assert Leaves(n)[1..] == Leaves(n - 1);
      AfterLeaves(n - 1, open - 1);
    }
  }

  lemma AfterMoves(prev: nat, depth: nat)
    requires depth <= prev + 1
    ensures After(Moves(prev, depth), prev) == depth
  {
    if depth <= prev {
      AfterLeaves(prev - depth, prev);
    } else {
      assert [Token(Enter, "")][1..] == [];
    }
  }

  /** Tokens that open and leave nothing. */
  lemma {:induction false} AfterLevel(tokens: seq<Token>, open: nat)
    requires forall k | 0 <= k < |tokens| :: tokens[k].kind !in {Enter, Leave}
    ensures After(tokens, open) == open
    decreases |tokens|
  {
    if tokens != [] {
      assert tokens[0].kind !in {Enter, Leave};
      AfterLevel(tokens[1..], open);
    }
  }

  // ----- a name and its value

  lemma ValueRows(t: Shape, name: string, value: string)
    requires Sound(t)
    ensures var r := WithChild(t, Data(Section, name, ""));
            && Sound(r) && HasKids(r) && HasKids(Step(r, Token(Value, value)))
            && Rows(Step(r, Token(Value, value))) ==
               Rows(t) + [Row(Level(t.parents, t.cur) + 1, Data(Item, name, value))]
  {
    NameRows(t, Data(Section, name, ""));
    var r := WithChild(t, Data(Section, name, ""));
    var q := Step(r, Token(Value, value));
    assert Rows(r)[|t.kids|] == Row(Level(t.parents, t.cur) + 1, Data(Section, name, ""));
    assert forall i | 0 <= i < |t.kids| :: Rows(q)[i] == Rows(r)[i];
  }

  lemma BetweenSound(t: Shape, prev: nat, can: bool)
    requires Between(t, prev, can)
    ensures Sound(t) && Ordered(t) && Level(t.parents, t.cur) == prev + 1 && (can ==> HasKids(t))
  {
  }

  lemma BetweenIf(t: Shape, prev: nat, can: bool)
    requires Sound(t) && Ordered(t) && Level(t.parents, t.cur) == prev + 1 && (can ==> HasKids(t))
    ensures Between(t, prev, can)
  {
  }

  /** The tokens behind the moves: the name and the comments in its value. */
  lemma NameRuns(t: Shape, depth: nat, name: string, comments: seq<Token>)
    requires Between(t, depth, false) && Comments(comments)
    ensures Sound(t) && Runs(t, [Token(Name, name)] + comments)
    ensures var r := Run(t, [Token(Name, name)] + comments);
            && r == WithChild(t, Data(Section, name, "")) && Between(r, depth, true)
            && Rows(r) == Rows(t) + [Row(depth + 2, Data(Section, name, ""))]
  {
    BetweenSound(t, depth, false);
    var token := Token(Name, name);
    var r := Step(t, token);
    assert Accepts(t, token) && r == WithChild(t, Data(Section, name, ""));
    hide *;
    RunOne(t, token);
    StepOrdered(t, token);
    NameRows(t, Data(Section, name, ""));
    CommentsRun(r, comments);
    RunJoin(t, [token], comments);
    BetweenIf(r, depth, true);
  }

  /** And then the value. */
  lemma ValueRuns(t: Shape, depth: nat, name: string, value: string)
    requires Between(t, depth, false)
    ensures Sound(t)
    ensures var r := WithChild(t, Data(Section, name, ""));
            && Sound(r) && Runs(r, [Token(Value, value)])
            && (Between(r, depth, true) ==>
                  var q := Run(r, [Token(Value, value)]);
                  Between(q, depth, true) && Rows(q) == Rows(t) + [Row(depth + 2, Data(Item, name, value))])
  {
    BetweenSound(t, depth, false);
    ValueRows(t, name, value);
    var r, token := WithChild(t, Data(Section, name, "")), Token(Value, value);
    RunOne(r, token);
    if Between(r, depth, true) {
      StepOrdered(r, token);
    }
  }

  lemma EntryRuns(t: Shape, depth: nat, name: string, comments: seq<Token>, value: string)
    requires Between(t, depth, false) && Comments(comments)
    ensures var tokens := [Token(Name, name)] + comments + (if value == "" then [] else [Token(Value, value)]);
            && Sound(t) && Runs(t, tokens) && Between(Run(t, tokens), depth, true)
            && Rows(Run(t, tokens)) == Rows(t) + [RowOf(Entry(depth, name, value))]
  {
    hide Between, Runs, Run, Rows, WithChild, Comments, Sound;
    NameRuns(t, depth, name, comments);
    if value == "" {
      assert [Token(Name, name)] + comments + [] == [Token(Name, name)] + comments;
    } else {
      ValueRuns(t, depth, name, value);
      RunJoin(t, [Token(Name, name)] + comments, [Token(Value, value)]);
    }
  }

  // ----- whole documents

  lemma PieceTokens(s: string, i: nat)
    requires i <= |s|
    ensures var v, value := Scanned(s, i, Slice(0, 0)), ValueText(s, i);
            && Comments(v.tokens)
            && ValuePiece(s, i).tokens == v.tokens + (if value == "" then [] else [Token(Value, value)])
  {
    ScannedComments(s, i, Slice(0, 0));
    hide Scanned, ValueText;
  }

  lemma Assoc4(a: seq<Token>, b: seq<Token>, c: seq<Token>, d: seq<Token>)
    ensures a + b + (c + d) == a + (b + c + d)
  {
  }

  lemma SectionLevel(s: string, i: nat, prev: nat, depth: nat, name: string)
    requires i <= |s| && depth <= prev + 1
    ensures After(Moves(prev, depth) + [Token(Name, name)] + ValuePiece(s, i).tokens, prev) == depth
  {
    PieceTokens(s, i);
    hide Moves, ValuePiece, Scanned, ValueText, After;
    AfterMoves(prev, depth);
    AfterJoin(Moves(prev, depth), [Token(Name, name)], prev);
    AfterLevel([Token(Name, name)], depth);
    AfterJoin(Moves(prev, depth) + [Token(Name, name)], ValuePiece(s, i).tokens, prev);
    AfterLevel(ValuePiece(s, i).tokens, depth);
  }

  /** The tokens of one name: to its depth, the name, what stands in its value. */
  lemma SectionRuns(t: Shape, s: string, i: nat, prev: nat, depth: nat, can: bool, name: string)
    requires i <= |s| && Between(t, prev, can) && (depth <= prev || (can && depth == prev + 1))
    ensures var tokens := Moves(prev, depth) + [Token(Name, name)] + ValuePiece(s, i).tokens;
            && Sound(t) && Runs(t, tokens) && Between(Run(t, tokens), depth, true)
            && Rows(Run(t, tokens)) == Rows(t) + [RowOf(Entry(depth, name, ValueText(s, i)))]
            && After(tokens, prev) == depth
  {
    hide Between, Runs, Run, Rows, RowOf, Moves, ValuePiece, ValueText, Scanned, After, Sound, Comments;
    SectionLevel(s, i, prev, depth, name);
    BetweenSound(t, prev, can);
    var v := Scanned(s, i, Slice(0, 0));
    var value := ValueText(s, i);
    var last := if value == "" then [] else [Token(Value, value)];
    PieceTokens(s, i);
    MovesRun(t, prev, depth, can);
    EntryRuns(Run(t, Moves(prev, depth)), depth, name, v.tokens, value);
    RunJoin(t, Moves(prev, depth), [Token(Name, name)] + v.tokens + last);
    Assoc4(Moves(prev, depth), [Token(Name, name)], v.tokens, last);
  }

  ghost predicate Follows(t: Shape, prev: nat, can: bool, out: Out) {
    && Between(t, prev, can) && Runs(t, out.tokens) && After(out.tokens, prev) == out.prev
    && Between(Run(t, out.tokens), out.prev, false) && Rows(Run(t, out.tokens)) == Rows(t) + RowsOf(out.entries)
  }

  lemma FollowsNothing(t: Shape, prev: nat, can: bool, fault: Fault)
    requires Between(t, prev, can)
    ensures Follows(t, prev, can, Out([], [], fault, prev))
  {
    hide Rows, Ordered, Sound;
    assert Rows(t) + [] == Rows(t);
  }

  lemma JoinRows(rows: seq<Row>, a: seq<Entry>, b: seq<Entry>)
    ensures rows + RowsOf(a + b) == rows + RowsOf(a) + RowsOf(b)
  {
    assert RowsOf(a + b) == RowsOf(a) + RowsOf(b);
  }

  lemma FollowsThen(t: Shape, prev: nat, can: bool, tokens: seq<Token>, entries: seq<Entry>, next: nat, further: bool,
                    rest: Out)
    requires Between(t, prev, can) && Sound(t) && Runs(t, tokens) && Between(Run(t, tokens), next, further)
    requires After(tokens, prev) == next && Rows(Run(t, tokens)) == Rows(t) + RowsOf(entries)
             && Follows(Run(t, tokens), next, further, rest)
    ensures Follows(t, prev, can, Then(tokens, entries, rest))
  {
    hide Between, Runs, Run, Rows, RowsOf, After, Sound;
    BetweenSound(Run(t, tokens), next, further);
    RunJoin(t, tokens, rest.tokens);
    AfterJoin(tokens, rest.tokens, prev);
    JoinRows(Rows(t), entries, rest.entries);
  }

  /** Whatever the parser hands out from j on, the builder can take. */
  lemma {:induction false} ParseRuns(s: string, v: nat, j: nat, depth: nat, prev: nat, can: bool, t: Shape)
    requires v <= j <= |s| && Between(t, prev, can)
    ensures Follows(t, prev, can, ParseOut(s, v, j, depth, prev, can))
    decreases |s| - j, 1
  {
    hide *;
    BetweenSound(t, prev, can);
    if j == |s| {
      ParseEnd(s, v, depth, prev, can);
      FollowsNothing(t, prev, can, if v < |s| then ColonMissing else Fine);
    } else if s[j] == '#' {
      ParseHash(s, v, j, depth, prev, can);
      var c := CommentPiece(s, j + 1);
      HashRuns(t, s, j + 1, prev, can);
      ParseRuns(s, c.next, c.next, 0, prev, false, t);
      FollowsThen(t, prev, can, c.tokens, [], prev, false, ParseOut(s, c.next, c.next, 0, prev, false));
    } else if s[j] == ':' {
      ParseColon(s, v, j, depth, prev, can);
      if depth > prev && (!can || depth != prev + 1) {
        FollowsNothing(t, prev, can, InvalidIndention);
      } else {
        var name, p := Chars.TrimRight(s[v..j]), ValuePiece(s, j + 1);
        var tokens := Moves(prev, depth) + [Token(Name, name)] + p.tokens;
        var e := Entry(depth, name, ValueText(s, j + 1));
        SectionRuns(t, s, j + 1, prev, depth, can, name);
        OneRow(e);
        ParseRuns(s, p.next, p.next, 0, depth, true, Run(t, tokens));
        FollowsThen(t, prev, can, tokens, [e], depth, true, ParseOut(s, p.next, p.next, 0, depth, true));
      }
    } else {
      CharRuns(s, v, j, depth, prev, can, t);
    }
  }

  lemma OneRow(e: Entry)
    ensures RowsOf([e]) == [RowOf(e)]
  {
  }

  lemma HashRuns(t: Shape, s: string, i: nat, prev: nat, can: bool)
    requires i <= |s| && Between(t, prev, can)
    ensures var c := CommentPiece(s, i);
            && Sound(t) && Runs(t, c.tokens) && Run(t, c.tokens) == t && After(c.tokens, prev) == prev
            && Between(t, prev, false) && Rows(t) == Rows(t) + RowsOf([])
  {
    hide LineEnd;
    AfterLevel(CommentPiece(s, i).tokens, prev);
    CommentsRun(t, CommentPiece(s, i).tokens);
  }

  lemma {:induction false} CharRuns(s: string, v: nat, j: nat, depth: nat, prev: nat, can: bool, t: Shape)
    requires v <= j < |s| && s[j] != '#' && s[j] != ':' && Between(t, prev, can)
    ensures Follows(t, prev, can, ParseOut(s, v, j, depth, prev, can))
    decreases |s| - j, 0
  {
    hide *;
    ParseChar(s, v, j, depth, prev, can);
    if v < j && s[j] == '\n' {
      FollowsNothing(t, prev, can, ColonMissing);
    } else if v < j {
      ParseRuns(s, v, j + 1, depth, prev, can, t);
    } else if s[j] == ' ' {
      FollowsNothing(t, prev, can, SpaceIndention);
    } else if s[j] == '\t' {
      ParseRuns(s, j + 1, j + 1, depth + 1, prev, can, t);
    } else if Chars.IsSpace(s[j]) {
      ParseRuns(s, j + 1, j + 1, depth, prev, can, t);
    } else {
      ParseRuns(s, v, j + 1, depth, prev, can, t);
    }
  }

  lemma InitialRows()
    ensures Between(Initial(), 0, false) && Rows(Initial()) == [Row(0, BLANK), Row(1, BLANK)]
  {
    var t := Initial();
    assert Preorder(t.kids, 1) == [1];
    assert PreorderFrom(t.kids, 0, 1) == [];
    assert Preorder(t.kids, 0) == [0] + (Preorder(t.kids, 1) + []) == [0, 1];
    assert Range(1, 2) == [1] && Range(0, 2) == [0, 1];
  }

  /** The builder can take every token of every document, whether it parses or not. The
      nodes of the tree, in preorder, are the root, the node of Initialize and the names at
      the depths committed for them. When the document parses, Enter and Leave are balanced,
      and the builder ends where it began. */
  lemma DocumentRuns(s: string)
    ensures var p := Processed(s);
            && Runs(Initial(), p.tokens) && Ordered(Run(Initial(), p.tokens))
            && Walk(Run(Initial(), p.tokens)) == [Row(0, BLANK), Row(1, BLANK)] + RowsOf(p.entries)
            && (p.fault == Fine ==> After(p.tokens, 0) == 0 && Run(Initial(), p.tokens).cur == 1)
            && After(p.tokens, 0) >= 0
  {
    InitialRows();
    var t := Initial();
    var out := ParseOut(s, 0, 0, 0, 0, false);
    ParseRuns(s, 0, 0, 0, 0, false, t);
    hide ParseOut, Initial, Level, Rows, Walk;
    var r := Run(t, out.tokens);
    if out.fault == Fine {
      LeavesRun(r, out.prev);
      RunJoin(t, out.tokens, Leaves(out.prev));
      AfterJoin(out.tokens, Leaves(out.prev), 0);
      AfterLeaves(out.prev, out.prev);
      BackAtOne(Run(t, out.tokens + Leaves(out.prev)), out.entries);
      WalkIsRows(Run(t, out.tokens + Leaves(out.prev)));
    } else {
      WalkIsRows(r);
    }
  }

  lemma NamesLieDeeper(t: Shape, es: seq<Entry>, i: nat)
    requires Sound(t) && Rows(t) == [Row(0, BLANK), Row(1, BLANK)] + RowsOf(es) && i < |t.kids|
    ensures Level(t.parents, i) == Rows(t)[i].level && (i >= 2 ==> Rows(t)[i].level >= 2)
  {
    hide Level;
    if i >= 2 {
      assert Rows(t)[i] == RowsOf(es)[i - 2];
    }
  }

  /** Only one node is on the first level. */
  lemma BackAtOne(t: Shape, es: seq<Entry>)
    requires Sound(t) && Rows(t) == [Row(0, BLANK), Row(1, BLANK)] + RowsOf(es) && Level(t.parents, t.cur) == 1
    ensures t.cur == 1
  {
    NamesLieDeeper(t, es, t.cur);
  }

  // ----- the parser and the builder together

  /** Hands the tokens to the builder one after the other. */
  method Feed(tree: Tree, tokens: seq<Token>)
    requires tree.Valid() && Sound(tree.shape) && Runs(tree.shape, tokens)
    modifies tree, tree.nodes
    ensures tree.Valid() && tree.shape == Run(old(tree.shape), tokens)
  {
    hide *;
    var i := 0;
    ghost var all := Run(tree.shape, tokens);
    assert tokens[0..] == tokens;
    while i < |tokens|
      invariant 0 <= i <= |tokens| && tree.Valid() && Sound(tree.shape)
      invariant forall k | 0 <= k < |tree.nodes| :: tree.nodes[k] in old(tree.nodes) || fresh(tree.nodes[k])
      invariant Runs(tree.shape, tokens[i..]) && Run(tree.shape, tokens[i..]) == all
    {
      RunStep(tree.shape, tokens[i..]);
      tree.ProcessToken(tokens[i].kind, tokens[i].value);
      assert tokens[i..][1..] == tokens[i + 1..];
      i := i + 1;
    }
    assert tokens[i..] == [];
    RunEnd(tree.shape);
  }

  /** Parses a document into a fresh tree. */
  method Load(s: string) returns (tree: Tree, fault: Fault)
    ensures fresh(tree) && tree.Valid() && fault == Processed(s).fault && Ordered(tree.shape)
    ensures Walk(tree.shape) == [Row(0, BLANK), Row(1, BLANK)] + RowsOf(Processed(s).entries)
    ensures fault == Fine ==> tree.shape.cur == 1
  {
    hide *;
    DocumentRuns(s);
    var parser := new Parser();
    fault := parser.Process(s);
    tree := new Tree();
    tree.Initialize();
    assert [] + Processed(s).tokens == Processed(s).tokens;
    Feed(tree, parser.tokens);
  }

  lemma RunStep(t: Shape, tokens: seq<Token>)
    requires tokens != [] && Sound(t) && Runs(t, tokens)
    ensures Accepts(t, tokens[0]) && Runs(Step(t, tokens[0]), tokens[1..])
    ensures Run(t, tokens) == Run(Step(t, tokens[0]), tokens[1..])
  {
  }

  lemma RunEnd(t: Shape)
    requires Sound(t)
    ensures Runs(t, []) && Run(t, []) == t
  {
  }
}
