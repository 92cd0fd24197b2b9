/** Ordered forests over nodes of any kind: the shape that the links of
    src/LinkedMemory.c spell out. A forest is given by the list of children of every
    node, the parent of every node that has one, and the subtree of every node. */
module Forests {
  import opened Sets

  datatype Forest<!A(==)> = Forest(kids: map<A, seq<A>>, up: map<A, A>, desc: map<A, set<A>>)

  ghost predicate IsRoot<A>(f: Forest<A>, a: A) {
    a in f.kids && a !in f.up
  }

  // ----- well-formedness

  ghost predicate Keyed<A>(f: Forest<A>) {
    && f.desc.Keys == f.kids.Keys && f.up.Keys <= f.kids.Keys
    && forall c | c in f.up :: f.up[c] in f.kids
  }

  ghost predicate Distinct<A>(s: seq<A>) {
    forall i, j | 0 <= i < j < |s| :: s[i] != s[j]
  }

  ghost predicate Lists<A>(s: seq<A>, up: map<A, A>, p: A) {
    && Distinct(s)
    && (forall c | c in s :: c in up && up[c] == p)
    && (forall c | c in up && up[c] == p :: c in s)
  }

  /** The list of p's children holds, each once, the nodes whose parent is p. */
  ghost predicate Listed<A>(f: Forest<A>, p: A)
    requires Keyed(f) && p in f.kids
  {
    Lists(f.kids[p], f.up, p)
  }

  /** The subtree of p: p, and with every other member the member's parent. */
  ghost predicate Subtree<A>(f: Forest<A>, p: A)
    requires Keyed(f) && p in f.kids
  {
    && p in f.desc[p] && f.desc[p] <= f.kids.Keys
    && (forall x | x in f.desc[p] :: Below(f, x, p))
  }

  /** A member of a subtree, with its own subtree and, up to the top, its parent. */
  ghost predicate Below<A>(f: Forest<A>, x: A, p: A)
    requires Keyed(f) && p in f.kids
  {
    && x in f.kids && f.desc[x] <= f.desc[p]
    && (x != p ==> x in f.up && f.up[x] in f.desc[p])
  }

  /** A child's subtree is part of its parent's and does not contain the parent. */
  ghost predicate Nested<A>(f: Forest<A>, c: A)
    requires Keyed(f) && c in f.up
  {
    f.desc[c] <= f.desc[f.up[c]] && f.up[c] !in f.desc[c]
  }

  ghost predicate WellFormed<A>(f: Forest<A>) {
    && Keyed(f)
    && (forall p | p in f.kids :: Listed(f, p) && Subtree(f, p))
    && (forall c | c in f.up :: Nested(f, c))
  }

  lemma IsKeyed<A>(f: Forest<A>)
    requires WellFormed(f)
    ensures Keyed(f)
  {
  }

  lemma At<A>(f: Forest<A>, p: A)
    requires WellFormed(f) && p in f.kids
    ensures Keyed(f) && Listed(f, p) && Subtree(f, p) && (p in f.up ==> Nested(f, p))
  {
  }

  lemma BelowAt<A>(f: Forest<A>, x: A, p: A)
    requires WellFormed(f) && p in f.kids && x in f.desc[p]
    ensures Keyed(f) && Below(f, x, p)
  {
    assert Subtree(f, p);
  }

  // ----- adding and linking

  ghost function Added<A>(f: Forest<A>, a: A): Forest<A> {
    Forest(f.kids[a := []], f.up, f.desc[a := {a}])
  }

  lemma AddedWellFormed<A>(f: Forest<A>, a: A)
    requires WellFormed(f) && a !in f.kids
    ensures WellFormed(Added(f, a)) && IsRoot(Added(f, a), a)
  {
    var g := Added(f, a);
    forall p | p in g.kids
      ensures Listed(g, p) && Subtree(g, p)
    {
      if p != a {
        assert Listed(f, p) && Subtree(f, p);
      }
    }
    forall c | c in g.up
      ensures Nested(g, c)
    {
      assert Nested(f, c);
    }
  }

  /** The root a becomes the last child of p. */
  ghost function Linked<A>(f: Forest<A>, a: A, p: A): Forest<A>
    requires a in f.desc && p in f.kids
  {
    Forest(f.kids[p := f.kids[p] + [a]], f.up[a := p],
           map x | x in f.desc :: if p in f.desc[x] then f.desc[x] + f.desc[a] else f.desc[x])
  }

  lemma LinkedKeyed<A>(f: Forest<A>, a: A, p: A)
    requires WellFormed(f) && a in f.kids && p in f.kids
    ensures Keyed(f)
    ensures var g := Linked(f, a, p);
            && Keyed(g) && g.kids.Keys == f.kids.Keys && g.up.Keys == f.up.Keys + {a}
            && (forall c | c in g.up :: g.up[c] == if c == a then p else f.up[c])
            && (forall x | x in f.desc :: g.desc[x] == if p in f.desc[x] then f.desc[x] + f.desc[a] else f.desc[x])
  {
  }

  lemma LinkedListed<A>(f: Forest<A>, a: A, p: A, y: A)
    requires WellFormed(f) && IsRoot(f, a) && p in f.kids && y in f.kids
    ensures Keyed(Linked(f, a, p)) && Listed(Linked(f, a, p), y)
  {
    hide WellFormed, Subtree, Nested;
    At(f, y);
    if y == p {
      ListedSnoc(f.kids[p], a);
    }
  }

  lemma ListedSnoc<A>(s: seq<A>, a: A)
    requires Distinct(s) && a !in s
    ensures Distinct(s + [a]) && forall c | c in s + [a] :: c in s || c == a
    ensures a in s + [a] && forall c | c in s :: c in s + [a]
  {
  }

  lemma RootInNoOther<A>(f: Forest<A>, a: A, x: A)
    requires WellFormed(f) && IsRoot(f, a) && x in f.kids && a in f.desc[x]
    ensures x == a
  {
    BelowAt(f, a, x);
  }

  lemma LinkedBelow<A>(f: Forest<A>, a: A, p: A, x: A, y: A)
    requires WellFormed(f) && IsRoot(f, a) && p in f.kids && p !in f.desc[a]
    requires y in f.kids && x in Linked(f, a, p).desc[y]
    ensures Keyed(Linked(f, a, p)) && Below(Linked(f, a, p), x, y)
  {
    IsKeyed(f);
    hide WellFormed, Listed;
    LinkedKeyed(f, a, p);
    At(f, y);
    At(f, a);
    if x in f.desc[y] {
      BelowAt(f, x, y);
      if x == a {
        RootInNoOther(f, a, y);
      }
    } else {
      BelowAt(f, x, a);
    }
  }

  lemma LinkedSubtree<A>(f: Forest<A>, a: A, p: A, y: A)
    requires WellFormed(f) && IsRoot(f, a) && p in f.kids && p !in f.desc[a] && y in f.kids
    ensures Keyed(Linked(f, a, p)) && Subtree(Linked(f, a, p), y)
  {
    LinkedKeyed(f, a, p);
    At(f, y);
    At(f, a);
    hide WellFormed, Listed, Nested, Below, Linked;
    var g := Linked(f, a, p);
    forall x | x in g.desc[y]
      ensures Below(g, x, y)
    {
      LinkedBelow(f, a, p, x, y);
    }
  }

  lemma OutsideSubtree<A>(f: Forest<A>, a: A, p: A, c: A)
    requires WellFormed(f) && a in f.kids && p !in f.desc[a]
    requires c in f.up && f.up[c] in f.desc[a]
    ensures p !in f.desc[c]
  {
    IsKeyed(f);
    hide WellFormed, Listed;
    At(f, c);
    BelowAt(f, f.up[c], a);
  }

  lemma LinkedNested<A>(f: Forest<A>, a: A, p: A, c: A)
    requires WellFormed(f) && IsRoot(f, a) && p in f.kids && p !in f.desc[a]
    requires c in Linked(f, a, p).up
    ensures Keyed(Linked(f, a, p)) && Nested(Linked(f, a, p), c)
  {
    IsKeyed(f);
    hide WellFormed, Listed, Linked;
    LinkedKeyed(f, a, p);
    if c == a {
      At(f, p);
    } else {
      NestedGrows(f, a, p, c);
    }
  }

  lemma NestedGrows<A>(f: Forest<A>, a: A, p: A, c: A)
    requires WellFormed(f) && a in f.kids && p in f.kids && p !in f.desc[a] && c in f.up
    ensures c in f.desc && f.up[c] in f.desc
    ensures var dc, dq := f.desc[c], f.desc[f.up[c]];
            && (if p in dc then dc + f.desc[a] else dc) <= (if p in dq then dq + f.desc[a] else dq)
            && f.up[c] !in (if p in dc then dc + f.desc[a] else dc)
  {
    IsKeyed(f);
    hide WellFormed, Listed, Subtree;
    At(f, c);
    if f.up[c] in f.desc[a] {
      OutsideSubtree(f, a, p, c);
    }
  }

  lemma LinkedWellFormed<A>(f: Forest<A>, a: A, p: A)
    requires WellFormed(f) && IsRoot(f, a) && p in f.kids && p !in f.desc[a]
    ensures WellFormed(Linked(f, a, p))
  {
    var g := Linked(f, a, p);
    At(f, p);
    LinkedKeyed(f, a, p);
    hide Listed, Subtree, Nested, Linked, Keyed;
    forall y | y in g.kids
      ensures Listed(g, y) && Subtree(g, y)
    {
      LinkedListed(f, a, p, y);
      LinkedSubtree(f, a, p, y);
    }
    forall c | c in g.up
      ensures Nested(g, c)
    {
      LinkedNested(f, a, p, c);
    }
  }

  // ----- what the subtrees are

  /** The n-th ancestor of x is p. */
  ghost predicate Ancestor<A>(f: Forest<A>, x: A, p: A, n: nat) {
    if n == 0 then x == p else x in f.up && Ancestor(f, f.up[x], p, n - 1)
  }

  /** Climbing makes the subtree grow. */
  lemma SubtreeGrows<A>(f: Forest<A>, x: A)
    requires WellFormed(f) && x in f.up
    ensures f.up[x] in f.kids && f.desc[x] < f.desc[f.up[x]] <= f.kids.Keys
  {
    IsKeyed(f);
    hide WellFormed, Listed;
    At(f, x);
    At(f, f.up[x]);
  }

  /** The subtree of p consists of the nodes that have p among their ancestors. */
  lemma SubtreeIsAncestry<A>(f: Forest<A>, x: A, p: A)
    requires WellFormed(f) && x in f.kids && p in f.kids
    ensures x in f.desc[p] <==> exists n: nat :: Ancestor(f, x, p, n)
  {
    if x in f.desc[p] {
      var n := ClimbTo(f, x, p);
    }
    if n: nat :| Ancestor(f, x, p, n) {
      FoundBelow(f, x, p, n);
    }
  }

  lemma OneUp<A>(f: Forest<A>, x: A, p: A)
    requires WellFormed(f) && p in f.kids && p in f.desc && x in f.desc[p] && x != p
    ensures x in f.up && f.up[x] in f.desc[p] && f.up[x] in f.kids && f.up[x] in f.desc && x in f.desc
    ensures |f.desc[x]| < |f.desc[f.up[x]]| <= |f.kids.Keys|
  {
    hide WellFormed, Subtree, Nested, Listed;
    IsKeyed(f);
    BelowAt(f, x, p);
    SubtreeGrows(f, x);
    CardinalityGrows(f.desc[x], f.desc[f.up[x]]);
    CardinalityGrows(f.desc[f.up[x]], f.kids.Keys);
  }

  lemma {:induction false} ClimbTo<A>(f: Forest<A>, x: A, p: A) returns (n: nat)
    requires WellFormed(f) && p in f.kids && p in f.desc && x in f.desc[p]
    ensures Ancestor(f, x, p, n)
    decreases |f.kids.Keys| - (if x in f.desc then |f.desc[x]| else 0)
  {
    hide WellFormed;
    if x == p {
      n := 0;
    } else {
      OneUp(f, x, p);
      var m := ClimbTo(f, f.up[x], p);
      n := m + 1;
    }
  }

  lemma {:induction false} FoundBelow<A>(f: Forest<A>, x: A, p: A, n: nat)
    requires WellFormed(f) && x in f.kids && p in f.kids && Ancestor(f, x, p, n)
    ensures x in f.desc[p]
    decreases n
  {
    IsKeyed(f);
    hide WellFormed;
    At(f, x);
    if n > 0 {
      FoundBelow(f, f.up[x], p, n - 1);
      BelowAt(f, f.up[x], p);
    }
  }

  // ----- cutting off

  ghost function Without<A>(s: seq<A>, a: A): seq<A> {
    if s == [] then [] else if s[0] == a then Without(s[1..], a) else [s[0]] + Without(s[1..], a)
  }

  lemma {:induction false} WithoutMembers<A>(s: seq<A>, a: A)
    ensures forall c | c in Without(s, a) :: c in s && c != a
    ensures forall c | c in s && c != a :: c in Without(s, a)
    ensures a !in s ==> Without(s, a) == s
  {
    if s != [] {
      WithoutMembers(s[1..], a);
      assert s == [s[0]] + s[1..];
    }
  }

  lemma {:induction false} WithoutDistinct<A>(s: seq<A>, a: A)
    requires Distinct(s)
    ensures Distinct(Without(s, a))
  {
    if s != [] {
      DistinctTail(s);
      WithoutDistinct(s[1..], a);
      WithoutMembers(s[1..], a);
      if s[0] != a {
        DistinctCons(s[0], Without(s[1..], a));
      }
    }
  }

  lemma DistinctTail<A>(s: seq<A>)
    requires Distinct(s) && s != []
    ensures Distinct(s[1..]) && s[0] !in s[1..]
  {
    assert forall j | 0 <= j < |s[1..]| :: s[1..][j] == s[j + 1] != s[0];
  }

  lemma DistinctCons<A>(x: A, s: seq<A>)
    requires Distinct(s) && x !in s
    ensures Distinct([x] + s)
  {
  }

  /** The subtree of a as a tree of its own, the rest without it. */
  ghost function Cut<A>(f: Forest<A>, a: A): Forest<A>
    requires Keyed(f) && a in f.kids
  {
    Forest(map x | x in f.kids :: if x in f.desc[a] then f.kids[x] else Without(f.kids[x], a),
           f.up - {a},
           map x | x in f.desc :: if x in f.desc[a] then f.desc[x] else f.desc[x] - f.desc[a])
  }

  /** The forest without the subtree of a. */
  ghost function Pruned<A>(f: Forest<A>, a: A): Forest<A>
    requires Keyed(f) && a in f.kids
  {
    Forest(map x | x in f.kids && x !in f.desc[a] :: Without(f.kids[x], a),
           map x | x in f.up && x !in f.desc[a] :: f.up[x],
           map x | x in f.desc && x !in f.desc[a] :: f.desc[x] - f.desc[a])
  }

  lemma CutAt<A>(f: Forest<A>, a: A, x: A)
    requires Keyed(f) && a in f.kids && x in f.kids
    ensures var g := Cut(f, a);
            && x in g.kids && g.kids[x] == (if x in f.desc[a] then f.kids[x] else Without(f.kids[x], a))
            && x in g.desc && g.desc[x] == (if x in f.desc[a] then f.desc[x] else f.desc[x] - f.desc[a])
            && (x in g.up <==> x in f.up && x != a) && (x in g.up ==> g.up[x] == f.up[x])
  {
  }

  lemma PrunedAt<A>(f: Forest<A>, a: A, x: A)
    requires Keyed(f) && a in f.kids && x in f.kids && x !in f.desc[a]
    ensures var g := Pruned(f, a);
            && x in g.kids && g.kids[x] == Without(f.kids[x], a)
            && x in g.desc && g.desc[x] == f.desc[x] - f.desc[a]
            && (x in g.up <==> x in f.up) && (x in g.up ==> g.up[x] == f.up[x])
  {
  }

  /** The forest without a single root that has no children. */
  ghost function Dropped<A>(f: Forest<A>, a: A): Forest<A> {
    Forest(f.kids - {a}, f.up, f.desc - {a})
  }

  /** A node outside a subtree has its parent outside, too. */
  lemma ParentOutside<A>(f: Forest<A>, a: A, x: A)
    requires WellFormed(f) && a in f.kids && x in f.up
    ensures x !in f.desc[a] ==> f.up[x] !in f.desc[a]
    ensures x in f.desc[a] && x != a ==> f.up[x] in f.desc[a]
  {
    IsKeyed(f);
    hide WellFormed, Listed;
    At(f, x);
    if x in f.desc[a] {
      BelowAt(f, x, a);
    } else if f.up[x] in f.desc[a] {
      BelowAt(f, f.up[x], a);
      assert false;
    }
  }

  /** No node other than a has a both above and below it. */
  lemma NotAbove<A>(f: Forest<A>, a: A, x: A)
    requires WellFormed(f) && a in f.kids && x in f.desc[a] && x in f.kids && a in f.desc[x]
    ensures x == a
  {
    if x != a {
      BelowAt(f, x, a);
      BelowAt(f, a, x);
      At(f, a);
      assert false;
    }
  }

  lemma ListsWithout<A>(s: seq<A>, up: map<A, A>, up': map<A, A>, p: A, a: A)
    requires Lists(s, up, p)
    requires forall c | c in s && c != a :: c in up' && up'[c] == p
    requires forall c | c in up' :: c in up && up'[c] == up[c] && c != a
    ensures Lists(Without(s, a), up', p)
  {
    WithoutDistinct(s, a);
    WithoutMembers(s, a);
  }

  lemma PrunedListed<A>(f: Forest<A>, a: A, p: A)
    requires WellFormed(f) && a in f.kids && p in f.kids && p !in f.desc[a]
    requires Keyed(Pruned(f, a))
    ensures Listed(Pruned(f, a), p)
  {
    IsKeyed(f);
    hide WellFormed, Nested, Subtree, Below;
    At(f, p);
    InOwnSubtree(f, a);
    forall c | c in f.kids[p] && c != a
      ensures c !in f.desc[a]
    {
      ParentOutside(f, a, c);
    }
    ListsWithout(f.kids[p], f.up, Pruned(f, a).up, p, a);
  }

  lemma PrunedBelow<A>(f: Forest<A>, a: A, x: A, p: A)
    requires WellFormed(f) && a in f.kids && p in f.kids && p !in f.desc[a]
    requires x in f.desc[p] && x !in f.desc[a]
    requires Keyed(Pruned(f, a))
    ensures Below(Pruned(f, a), x, p)
  {
    IsKeyed(f);
    hide WellFormed;
    BelowAt(f, x, p);
    if x != p {
      ParentOutside(f, a, x);
    }
  }

  lemma PrunedSubtree<A>(f: Forest<A>, a: A, p: A)
    requires WellFormed(f) && a in f.kids && p in f.kids && p !in f.desc[a]
    requires Keyed(Pruned(f, a))
    ensures Subtree(Pruned(f, a), p)
  {
    IsKeyed(f);
    hide WellFormed, Nested, Listed, Below, Keyed;
    At(f, p);
    var g := Pruned(f, a);
    forall x | x in g.desc[p]
      ensures Below(g, x, p)
    {
      PrunedBelow(f, a, x, p);
    }
  }

  lemma PrunedKeyed<A>(f: Forest<A>, a: A)
    requires WellFormed(f) && a in f.kids
    ensures Keyed(f) && Keyed(Pruned(f, a))
  {
    var g := Pruned(f, a);
    forall c | c in g.up
      ensures g.up[c] in g.kids
    {
      ParentOutside(f, a, c);
    }
  }

  lemma PrunedWellFormed<A>(f: Forest<A>, a: A)
    requires WellFormed(f) && a in f.kids
    ensures Keyed(f) && WellFormed(Pruned(f, a))
  {
    PrunedKeyed(f, a);
    hide Listed, Subtree, Keyed;
    var g := Pruned(f, a);
    forall p | p in g.kids
      ensures Listed(g, p) && Subtree(g, p)
    {
      PrunedListed(f, a, p);
      PrunedSubtree(f, a, p);
    }
    forall c | c in g.up
      ensures Nested(g, c)
    {
      At(f, c);
      ParentOutside(f, a, c);
    }
  }

  lemma CutListed<A>(f: Forest<A>, a: A, p: A)
    requires WellFormed(f) && a in f.kids && p in f.kids && Keyed(Cut(f, a))
    ensures Listed(Cut(f, a), p)
  {
    IsKeyed(f);
    hide WellFormed, Nested, Subtree, Below;
    At(f, p);
    if p in f.desc[a] {
      NotChildBelow(f, a, p);
    } else {
      ListsWithout(f.kids[p], f.up, f.up - {a}, p, a);
    }
  }

  lemma InOwnSubtree<A>(f: Forest<A>, a: A)
    requires WellFormed(f) && a in f.kids
    ensures a in f.desc && a in f.desc[a] && f.desc[a] <= f.kids.Keys
  {
    assert Subtree(f, a);
  }

  lemma NotChildBelow<A>(f: Forest<A>, a: A, p: A)
    requires WellFormed(f) && a in f.kids && p in f.kids && p in f.desc[a]
    ensures a !in f.kids[p]
  {
    if a in f.kids[p] {
      At(f, p);
      NotParent(f, a);
      assert false;
    }
  }

  lemma NotParent<A>(f: Forest<A>, a: A)
    requires WellFormed(f) && a in f.up
    ensures a in f.kids && f.up[a] !in f.desc[a]
  {
    At(f, a);
  }

  lemma CutBelow<A>(f: Forest<A>, a: A, x: A, p: A)
    requires WellFormed(f) && a in f.kids && p in f.kids && Keyed(Cut(f, a))
    requires x in Cut(f, a).desc[p]
    ensures Below(Cut(f, a), x, p)
  {
    IsKeyed(f);
    hide WellFormed, Listed, Subtree, Nested, Cut;
    CutAt(f, a, p);
    if p in f.desc[a] {
      CutBelowInside(f, a, x, p);
    } else {
      BelowAt(f, x, p);
      CutAt(f, a, x);
      if x != p {
        ParentOutside(f, a, x);
      }
    }
  }

  lemma CutBelowInside<A>(f: Forest<A>, a: A, x: A, p: A)
    requires WellFormed(f) && a in f.kids && p in f.kids && Keyed(Cut(f, a))
    requires p in f.desc[a] && x in f.desc[p]
    ensures Below(Cut(f, a), x, p)
  {
    IsKeyed(f);
    hide WellFormed, Listed, Subtree, Nested, Cut;
    BelowAt(f, x, p);
    BelowAt(f, p, a);
    CutAt(f, a, x);
    CutAt(f, a, p);
    if x == a {
      NotAbove(f, a, p);
    }
  }

  lemma CutSubtree<A>(f: Forest<A>, a: A, p: A)
    requires WellFormed(f) && a in f.kids && p in f.kids && Keyed(Cut(f, a))
    ensures Subtree(Cut(f, a), p)
  {
    IsKeyed(f);
    hide WellFormed, Nested, Listed, Below, Keyed;
    At(f, p);
    var g := Cut(f, a);
    forall x | x in g.desc[p]
      ensures Below(g, x, p)
    {
      CutBelow(f, a, x, p);
    }
  }

  lemma CutNested<A>(f: Forest<A>, a: A, c: A)
    requires WellFormed(f) && a in f.kids && Keyed(Cut(f, a)) && c in Cut(f, a).up
    ensures Nested(Cut(f, a), c)
  {
    IsKeyed(f);
    hide WellFormed, Listed, Subtree;
    At(f, c);
    ParentOutside(f, a, c);
  }

  lemma CutWellFormed<A>(f: Forest<A>, a: A)
    requires WellFormed(f) && a in f.kids
    ensures Keyed(f) && WellFormed(Cut(f, a)) && IsRoot(Cut(f, a), a)
  {
    IsKeyed(f);
    var g := Cut(f, a);
    assert Keyed(g);
    hide Listed, Subtree, Nested, Keyed;
    forall p | p in g.kids
      ensures Listed(g, p) && Subtree(g, p)
    {
      CutListed(f, a, p);
      CutSubtree(f, a, p);
    }
    forall c | c in g.up
      ensures Nested(g, c)
    {
      CutNested(f, a, c);
    }
  }

  // ----- taking a tree apart, child by child

  /** Node x, outside the subtree of a, is in g as it is in f without that subtree. */
  ghost predicate AsPruned<A>(f: Forest<A>, a: A, g: Forest<A>, x: A)
    requires Keyed(f) && a in f.kids && x in f.kids
  {
    && x in g.kids && g.kids[x] == Without(f.kids[x], a)
    && x in g.desc && g.desc[x] == f.desc[x] - f.desc[a]
    && (x in g.up <==> x in f.up) && (x in f.up && x in g.up ==> g.up[x] == f.up[x])
  }

  /** The tree of a was cut off and some of its branches are gone. */
  ghost predicate TakenApart<A>(f: Forest<A>, a: A, g: Forest<A>)
    requires Keyed(f) && a in f.kids
  {
    && WellFormed(g) && IsRoot(g, a)
    && a in g.desc && g.desc[a] <= f.desc[a]
    && g.kids.Keys == (f.kids.Keys - f.desc[a]) + g.desc[a]
    && (forall x | x in f.kids && x !in f.desc[a] :: AsPruned(f, a, g, x))
  }

  lemma CutTakesApart<A>(f: Forest<A>, a: A)
    requires WellFormed(f) && a in f.kids
    ensures Keyed(f) && TakenApart(f, a, Cut(f, a)) && Cut(f, a).desc[a] == f.desc[a] && Cut(f, a).kids[a] == f.kids[a]
  {
    IsKeyed(f);
    hide WellFormed;
    InOwnSubtree(f, a);
    CutWellFormed(f, a);
    CutAt(f, a, a);
    forall x | x in f.kids && x !in f.desc[a]
      ensures AsPruned(f, a, Cut(f, a), x)
    {
      CutAt(f, a, x);
    }
  }

  /** The first child of a: its subtree is smaller, and nothing outside knows it. */
  lemma FirstChild<A>(g: Forest<A>, a: A)
    requires WellFormed(g) && a in g.kids && g.kids[a] != []
    ensures var c := g.kids[a][0];
            && c in g.up && g.up[c] == a && c in g.kids && c != a
            && c in g.desc && a in g.desc && g.desc[c] < g.desc[a] && a !in g.desc[c] && c in g.desc[c]
  {
    At(g, a);
    var c := g.kids[a][0];
    assert c in g.kids[a];
    At(g, c);
  }

  lemma StillAsPruned<A>(f: Forest<A>, a: A, g: Forest<A>, c: A, x: A)
    requires WellFormed(f) && a in f.kids && x in f.kids && x !in f.desc[a]
    requires WellFormed(g) && Keyed(g) && c in g.kids && g.desc[c] <= f.desc[a]
    requires AsPruned(f, a, g, x) && c in f.desc[a] && c !in g.kids[x]
    ensures AsPruned(f, a, Pruned(g, c), x)
  {
    IsKeyed(f);
    hide WellFormed, Pruned;
    PrunedAt(g, c, x);
    WithoutMembers(g.kids[x], c);
  }

  lemma BranchKeys<A>(f: Forest<A>, a: A, g: Forest<A>, c: A)
    requires Keyed(f) && a in f.kids && TakenApart(f, a, g)
    requires c in g.desc && c in g.kids && g.desc[c] < g.desc[a]
    ensures Keyed(g) && Pruned(g, c).kids.Keys == (f.kids.Keys - f.desc[a]) + (g.desc[a] - g.desc[c])
  {
    IsKeyed(g);
    hide WellFormed, Keyed, AsPruned, IsRoot;
    assert Pruned(g, c).kids.Keys == g.kids.Keys - g.desc[c];
  }

  lemma TakeBranch<A>(f: Forest<A>, a: A, g: Forest<A>)
    requires WellFormed(f) && a in f.kids && TakenApart(f, a, g) && g.kids[a] != []
    ensures Keyed(g) && g.kids[a][0] in g.kids && TakenApart(f, a, Pruned(g, g.kids[a][0]))
    ensures a in g.desc && Pruned(g, g.kids[a][0]).desc[a] == g.desc[a] - g.desc[g.kids[a][0]]
    ensures Pruned(g, g.kids[a][0]).kids[a] == g.kids[a][1..]
  {
    IsKeyed(f);
    IsKeyed(g);
    InOwnSubtree(f, a);
    FirstChild(g, a);
    var c := g.kids[a][0];
    BranchKeys(f, a, g, c);
    hide WellFormed, Pruned, Keyed, AsPruned;
    PrunedWellFormed(g, c);
    PrunedAt(g, c, a);
    FirstGone(g, a);
    forall x | x in f.kids && x !in f.desc[a]
      ensures AsPruned(f, a, Pruned(g, c), x)
    {
      NotElsewhere(g, a, c, x);
      StillAsPruned(f, a, g, c, x);
    }
  }

  lemma NotElsewhere<A>(g: Forest<A>, a: A, c: A, x: A)
    requires WellFormed(g) && a in g.kids && c in g.up && g.up[c] == a && x != a
    ensures x in g.kids ==> c !in g.kids[x]
  {
    if x in g.kids {
      At(g, x);
    }
  }

  lemma FirstGone<A>(g: Forest<A>, a: A)
    requires WellFormed(g) && a in g.kids && g.kids[a] != []
    ensures Without(g.kids[a], g.kids[a][0]) == g.kids[a][1..]
  {
    At(g, a);
    DistinctTail(g.kids[a]);
    WithoutMembers(g.kids[a][1..], g.kids[a][0]);
  }

  /** A node without children is its own subtree. */
  lemma Childless<A>(g: Forest<A>, a: A)
    requires WellFormed(g) && a in g.kids && g.kids[a] == []
    ensures a in g.desc && g.desc[a] == {a}
  {
    IsKeyed(g);
    InOwnSubtree(g, a);
    forall x | x in g.desc[a]
      ensures x == a
    {
      if x != a {
        HasChild(g, a, x);
        assert false;
      }
    }
  }

  lemma {:induction false} HasChild<A>(g: Forest<A>, a: A, x: A)
    requires WellFormed(g) && a in g.kids && a in g.desc && x in g.desc[a] && x != a
    ensures g.kids[a] != []
    decreases |g.kids.Keys| - (if x in g.desc then |g.desc[x]| else 0)
  {
    hide WellFormed;
    OneUp(g, x, a);
    if g.up[x] == a {
      IsKeyed(g);
      At(g, a);
    } else {
      HasChild(g, a, g.up[x]);
    }
  }

  lemma LastNode<A>(f: Forest<A>, a: A, g: Forest<A>, x: A)
    requires Keyed(f) && a in f.kids && x in f.kids && x !in f.desc[a] && AsPruned(f, a, g, x) && x != a
    ensures var d, h := Dropped(g, a), Pruned(f, a);
            && x in d.kids && x in h.kids && d.kids[x] == h.kids[x]
            && x in d.desc && x in h.desc && d.desc[x] == h.desc[x]
            && (x in d.up <==> x in h.up) && (x in d.up && x in h.up ==> d.up[x] == h.up[x])
  {
    PrunedAt(f, a, x);
    hide Pruned, Keyed;
  }

  lemma SameForest<A>(d: Forest<A>, h: Forest<A>)
    requires Keyed(h) && d.kids.Keys == h.kids.Keys && d.desc.Keys == h.kids.Keys && d.up.Keys <= h.kids.Keys
    requires forall x | x in h.kids ::
               && d.kids[x] == h.kids[x] && d.desc[x] == h.desc[x]
               && (x in d.up <==> x in h.up) && (x in d.up && x in h.up ==> d.up[x] == h.up[x])
    ensures d == h
  {
    assert d.kids == h.kids;
    assert d.desc == h.desc;
    assert d.up.Keys == h.up.Keys;
    assert d.up == h.up;
  }

  lemma LastKeys<A>(f: Forest<A>, a: A, g: Forest<A>)
    requires Keyed(f) && a in f.kids && a in f.desc[a] && Keyed(g) && IsRoot(g, a)
    requires g.kids.Keys == (f.kids.Keys - f.desc[a]) + {a}
    ensures var d, h := Dropped(g, a), Pruned(f, a);
            d.kids.Keys == h.kids.Keys == f.kids.Keys - f.desc[a] && d.desc.Keys == h.kids.Keys
            && d.up.Keys <= h.kids.Keys
  {
    assert a !in g.up;
    assert Pruned(f, a).kids.Keys == f.kids.Keys - f.desc[a];
  }

  /** Once all branches are gone, dropping a leaves the forest without its subtree. */
  lemma DropLast<A>(f: Forest<A>, a: A, g: Forest<A>)
    requires WellFormed(f) && a in f.kids && TakenApart(f, a, g) && g.kids[a] == []
    ensures Keyed(f) && Dropped(g, a) == Pruned(f, a)
  {
    IsKeyed(f);
    IsKeyed(g);
    InOwnSubtree(f, a);
    Childless(g, a);
    PrunedKeyed(f, a);
    hide WellFormed, Dropped, Pruned, Keyed, AsPruned;
    LastKeys(f, a, g);
    forall x | x in Pruned(f, a).kids
      ensures var d, h := Dropped(g, a), Pruned(f, a);
              && x in d.kids && x in h.kids && d.kids[x] == h.kids[x]
              && x in d.desc && x in h.desc && d.desc[x] == h.desc[x]
              && (x in d.up <==> x in h.up) && (x in d.up && x in h.up ==> d.up[x] == h.up[x])
    {
      LastNode(f, a, g, x);
    }
    SameForest(Dropped(g, a), Pruned(f, a));
  }
}
