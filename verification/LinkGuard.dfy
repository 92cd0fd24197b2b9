/** What the check of _Link in src/LinkedMemory.c leaves to the caller. It turns away the
    first child of a parent only; here is exactly when linking any other block leaves links
    that spell out a forest. */
module LinkGuard {
  import opened Forests
  import opened LinkedMemory

  /** The block that a link leads to is a later child, right behind the block with the link. */
  lemma NextOf(m: map<Allocation, Links>, g: Forest<Allocation>, x: Allocation, a: Allocation)
    returns (p: Allocation, i: nat)
    requires WellFormed(g) && Laid(m, g, {}) && x in m && m[x].next == a
    ensures p in g.kids && i + 1 < |g.kids[p]| && g.kids[p][i] == x && g.kids[p][i + 1] == a
    ensures a in m && !m[a].hasParent
  {
    RowAt(m, g, {}, x);
    hide *;
    i := Place(g, x);
    p := g.up[x];
    RowAt(m, g, {}, p);
    SeatedNext(m, g.kids[p], p, i);
  }

  lemma SeatedNext(m: map<Allocation, Links>, s: seq<Allocation>, p: Allocation, i: nat)
    requires Row(m, s, p) && i < |s|
    ensures s[i] in m && m[s[i]].hasParent == (i == 0)
    ensures m[s[i]].next == if i + 1 < |s| then s[i + 1] else null
    ensures i + 1 < |s| ==> s[i + 1] in m && !m[s[i + 1]].hasParent
  {
    assert Seated(m, s, p, i);
    assert i + 1 < |s| ==> Seated(m, s, p, i + 1);
  }

  /** Links lead to a block from one place only, and never from itself. */
  lemma OneWayIn(m: map<Allocation, Links>, g: Forest<Allocation>, x: Allocation, y: Allocation, a: Allocation)
    requires WellFormed(g) && Laid(m, g, {}) && x in m && y in m && m[x].next == a && m[y].next == a
    ensures x == y && x != a && a in m && !m[a].hasParent
  {
    hide *;
    var p, i := NextOf(m, g, x, a);
    var q, j := NextOf(m, g, y, a);
    OneParent(g, p, i + 1, q, j + 1);
    SamePlace(g.kids[p], i, j);
  }

  lemma OneParent(g: Forest<Allocation>, p: Allocation, i: nat, q: Allocation, j: nat)
    requires WellFormed(g) && p in g.kids && q in g.kids && i < |g.kids[p]| && j < |g.kids[q]|
    requires g.kids[p][i] == g.kids[q][j]
    ensures p == q && Distinct(g.kids[p])
  {
    At(g, p);
    At(g, q);
    hide WellFormed, Subtree, Nested, Distinct;
    assert g.kids[p][i] in g.kids[p] && g.kids[q][j] in g.kids[q];
  }

  lemma SamePlace(s: seq<Allocation>, i: nat, j: nat)
    requires Distinct(s) && i + 1 < |s| && j + 1 < |s| && s[i + 1] == s[j + 1]
    ensures i == j && s[i] != s[i + 1]
  {
  }

  // ----- a later child

  /** A later child that is linked again has two blocks that lead to it, or leads to itself. */
  lemma LaterChild(m: map<Allocation, Links>, f: Forest<Allocation>, a: Allocation, p: Allocation,
                   g: Forest<Allocation>)
    requires WellFormed(f) && Laid(m, f, {}) && a in f.up && p in f.kids && a in m && !m[a].hasParent
    requires m.Keys == f.kids.Keys && forall c | c in f.kids[p] :: c in m
    requires WellFormed(g)
    ensures !Laid(Hung(m, f.kids[p], p, a), g, {})
  {
    hide *;
    var s, h := f.kids[p], Hung(m, f.kids[p], p, a);
    var x := Before(m, f, a);
    LastHasNoNext(m, f, p, x, a);
    HungTwice(m, s, p, a, x);
    if Laid(h, g, {}) {
      if s == [] {
        OneWayIn(h, g, x, x, a);
      } else {
        OneWayIn(h, g, x, s[|s| - 1], a);
      }
    }
  }

  /** The sibling in front of a later child. */
  lemma Before(m: map<Allocation, Links>, f: Forest<Allocation>, a: Allocation) returns (x: Allocation)
    requires WellFormed(f) && Laid(m, f, {}) && a in f.up && a in m && !m[a].hasParent
    ensures x in m && m[x].next == a
  {
    hide *;
    var i := Place(f, a);
    var p := f.up[a];
    RowAt(m, f, {}, p);
    SeatedNext(m, f.kids[p], p, i);
    x := f.kids[p][i - 1];
    SeatedNext(m, f.kids[p], p, i - 1);
  }

  lemma LastHasNoNext(m: map<Allocation, Links>, f: Forest<Allocation>, p: Allocation, x: Allocation, a: Allocation)
    requires Laid(m, f, {}) && p in f.kids && x in m && m[x].next == a
    ensures f.kids[p] != [] ==> f.kids[p][|f.kids[p]| - 1] != x
  {
    hide *;
    RowAt(m, f, {}, p);
    if f.kids[p] != [] {
      SeatedNext(m, f.kids[p], p, |f.kids[p]| - 1);
    }
  }

  lemma HungTwice(m: map<Allocation, Links>, s: seq<Allocation>, p: Allocation, a: Allocation, x: Allocation)
    requires p in m && a in m && x in m && m[x].next == a && forall c | c in s :: c in m
    ensures var h := Hung(m, s, p, a);
            && x in h && a in h && h[x].next == a
            && (s == [] ==> h[a].hasParent)
            && (s != [] ==> s[|s| - 1] in h && h[s[|s| - 1]].next == a)
  {
  }

  // ----- a root that is linked below itself

  /** The rows after linking are those before, and that of p with a behind it. */
  lemma KidsAfter(m: map<Allocation, Links>, f: Forest<Allocation>, a: Allocation, p: Allocation, g: Forest<Allocation>,
                  q: Allocation)
    requires WellFormed(f) && Laid(m, f, {}) && a in f.kids && a !in f.up && p in f.kids && q in f.kids
    requires m.Keys == f.kids.Keys && forall c | c in f.kids[p] :: c in m
    requires Laid(Hung(m, f.kids[p], p, a), g, {})
    ensures q in g.kids && g.kids[q] == f.kids[q] + (if q == p then [a] else [])
  {
    hide *;
    HungHere(m, f, a, p);
    var h := Hung(m, f.kids[p], p, a);
    KeysOf(h, g);
    RowAt(h, g, {}, q);
    if q == p {
      RowIsUnique(h, g.kids[p], f.kids[p] + [a], p);
    } else {
      HungOther(m, f, a, p, q);
      RowIsUnique(h, g.kids[q], f.kids[q], q);
    }
  }

  lemma KeysOf(m: map<Allocation, Links>, f: Forest<Allocation>)
    requires Laid(m, f, {})
    ensures m.Keys == f.kids.Keys
  {
  }

  lemma ChildOf(g: Forest<Allocation>, q: Allocation, s: seq<Allocation>, t: seq<Allocation>, i: nat)
    requires WellFormed(g) && q in g.kids && g.kids[q] == s + t && i < |s|
    ensures s[i] in g.up && g.up[s[i]] == q
  {
    At(g, q);
    assert g.kids[q][i] == s[i] && s[i] in g.kids[q];
  }

  /** Who was below a before is below a after. */
  lemma {:induction false} StillBelow(m: map<Allocation, Links>, f: Forest<Allocation>, a: Allocation, p: Allocation,
                                      g: Forest<Allocation>, x: Allocation, n: nat)
    requires WellFormed(f) && Laid(m, f, {}) && a in f.kids && a !in f.up && p in f.kids
    requires m.Keys == f.kids.Keys && forall c | c in f.kids[p] :: c in m
    requires WellFormed(g) && Laid(Hung(m, f.kids[p], p, a), g, {})
    requires Ancestor(f, x, a, n)
    ensures Ancestor(g, x, a, n)
    decreases n
  {
    hide WellFormed, Laid, Hung;
    if n > 0 {
      var i := Place(f, x);
      var q := f.up[x];
      KidsAfter(m, f, a, p, g, q);
      ChildOf(g, q, f.kids[q], if q == p then [a] else [], i);
      StillBelow(m, f, a, p, g, q, n - 1);
    }
  }

  /** A root that is linked below a member of its own subtree becomes its own ancestor. */
  lemma OwnAncestor(m: map<Allocation, Links>, f: Forest<Allocation>, a: Allocation, p: Allocation,
                    g: Forest<Allocation>)
    requires WellFormed(f) && Laid(m, f, {}) && a in f.kids && a !in f.up && p in f.kids
    requires m.Keys == f.kids.Keys && forall c | c in f.kids[p] :: c in m
    requires a in f.desc && p in f.desc[a] && WellFormed(g)
    ensures !Laid(Hung(m, f.kids[p], p, a), g, {})
  {
    if Laid(Hung(m, f.kids[p], p, a), g, {}) {
      SubtreeIsAncestry(f, p, a);
      var n: nat :| Ancestor(f, p, a, n);
      StillBelow(m, f, a, p, g, p, n);
      KidsAfter(m, f, a, p, g, p);
      KidsAfter(m, f, a, p, g, a);
      hide Laid, Hung, Ancestor;
      SubtreeIsAncestry(g, p, a);
      At(g, p);
      assert g.kids[p][|f.kids[p]|] == a && a in g.kids[p];
      At(g, a);
      assert false;
    }
  }

  // ----- when linking is safe

  /** If the check lets a block through, the links after linking spell out a forest exactly
      if the block was a root and its new parent is not below it. */
  lemma LinkIsSafe(m: map<Allocation, Links>, f: Forest<Allocation>, a: Allocation, p: Allocation)
    requires WellFormed(f) && Laid(m, f, {}) && a in m && p in m && !m[a].hasParent
    ensures a in f.desc && p in f.kids && forall c | c in f.kids[p] :: c in m
    ensures (exists g :: WellFormed(g) && Laid(Hung(m, f.kids[p], p, a), g, {})) <==> IsRoot(f, a) && p !in f.desc[a]
  {
    IsKeyed(f);
    KeysOf(m, f);
    Strangers(f, p);
    var s := f.kids[p];
    if a in f.up {
      forall g | WellFormed(g)
        ensures !Laid(Hung(m, s, p, a), g, {})
      {
        LaterChild(m, f, a, p, g);
      }
    } else if p in f.desc[a] {
      forall g | WellFormed(g)
        ensures !Laid(Hung(m, s, p, a), g, {})
      {
        OwnAncestor(m, f, a, p, g);
      }
    } else {
      Linking(m, f, a, p);
      assert WellFormed(Linked(f, a, p)) && Laid(Hung(m, s, p, a), Linked(f, a, p), {});
    }
  }
}
