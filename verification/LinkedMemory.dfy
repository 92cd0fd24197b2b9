/** src/LinkedMemory.c without sessions: allocations that own other allocations. The links
    prev, next, child and hasParent spell out an ordered forest; freeing an allocation
    frees its whole subtree; while bundling, new allocations join the first one. */
module LinkedMemory {
  import opened Forests
  import opened Sets

  datatype Bundling = Disabled | AwaitingAlloc | Ok

  datatype Outcome = Done | HasParent | AlreadyBundling | NotBundling

  class Allocation {
    const size: nat
    var hasParent: bool
    var prev: Allocation?
    var next: Allocation?
    var child: Allocation?

    constructor (size: nat)
      ensures this.size == size && LinksOf(this) == Links(false, null, null, null) && !hasParent
    {
      this.size := size;
      hasParent, prev, next, child := false, null, null, null;
    }
  }

  // ----- the links of the live allocations, and what they spell out

  datatype Links = Links(hasParent: bool, prev: Allocation?, next: Allocation?, child: Allocation?)

  /** What is written in allocation a. */
  ghost function LinksOf(a: Allocation): Links
    reads a
  {
    Links(a.hasParent, a.prev, a.next, a.child)
  }

  ghost function View(live: set<Allocation>): map<Allocation, Links>
    reads live
  {
    map a | a in live :: LinksOf(a)
  }

  lemma ViewAt(live: set<Allocation>, a: Allocation)
    requires a in live
    ensures a in View(live) && View(live)[a].child == a.child && View(live)[a].next == a.next
  {
  }

  lemma ViewWithout(live: set<Allocation>, a: Allocation)
    ensures View(live - {a}) == View(live) - {a}
  {
  }

  /** A node without parent and siblings. */
  ghost predicate Single(l: Links) {
    !l.hasParent && l.prev == null && l.next == null
  }

  /** The links of the i-th child in the list s of the children of p. */
  ghost predicate Seated(m: map<Allocation, Links>, s: seq<Allocation>, p: Allocation, i: nat)
    requires i < |s|
  {
    && s[i] in m
    && m[s[i]].hasParent == (i == 0)
    && m[s[i]].prev == (if i == 0 then p else s[i - 1])
    && m[s[i]].next == (if i + 1 < |s| then s[i + 1] else null)
  }

  /** The links spell out s as the list of the children of p. */
  ghost predicate Row(m: map<Allocation, Links>, s: seq<Allocation>, p: Allocation) {
    && p in m && m[p].child == (if s == [] then null else s[0])
    && forall i | 0 <= i < |s| :: Seated(m, s, p, i)
  }

  /** The links spell out f, where nothing is said about the links of the nodes in loose
      to a parent and siblings: these are roots that are about to be destroyed. */
  ghost predicate Laid(m: map<Allocation, Links>, f: Forest<Allocation>, loose: set<Allocation>) {
    && m.Keys == f.kids.Keys
    && (forall p | p in f.kids :: Row(m, f.kids[p], p))
    && (forall a | a in f.kids && a !in f.up && a !in loose :: Single(m[a]))
  }

  lemma RowAt(m: map<Allocation, Links>, f: Forest<Allocation>, loose: set<Allocation>, p: Allocation)
    requires Laid(m, f, loose) && p in f.kids
    ensures m.Keys == f.kids.Keys && Row(m, f.kids[p], p) && (p !in f.up && p !in loose ==> Single(m[p]))
  {
  }

  lemma LaidIf(m: map<Allocation, Links>, f: Forest<Allocation>, loose: set<Allocation>)
    requires m.Keys == f.kids.Keys && forall p | p in f.kids :: Row(m, f.kids[p], p)
    requires forall a | a in f.kids && a !in f.up && a !in loose :: a in m && Single(m[a])
    ensures Laid(m, f, loose)
  {
  }

  /** The place of a node among its siblings. */
  lemma Place(f: Forest<Allocation>, a: Allocation) returns (i: nat)
    requires WellFormed(f) && a in f.up
    ensures f.up[a] in f.kids && i < |f.kids[f.up[a]]| && f.kids[f.up[a]][i] == a
  {
    At(f, f.up[a]);
    i :| i < |f.kids[f.up[a]]| && f.kids[f.up[a]][i] == a;
  }

  /** The check in _Link sees the first child of a parent only. */
  lemma HasParentMeansFirst(m: map<Allocation, Links>, f: Forest<Allocation>, a: Allocation)
    requires WellFormed(f) && Laid(m, f, {}) && a in m
    ensures m[a].hasParent <==> exists p :: p in f.kids && f.kids[p] != [] && f.kids[p][0] == a
  {
    hide WellFormed;
    if a in f.up {
      var i := Place(f, a);
      RowAt(m, f, {}, f.up[a]);
      assert Seated(m, f.kids[f.up[a]], f.up[a], i);
      if p :| p in f.kids && f.kids[p] != [] && f.kids[p][0] == a {
        RowAt(m, f, {}, p);
        assert Seated(m, f.kids[p], p, 0);
      }
    } else {
      if p :| p in f.kids && f.kids[p] != [] && f.kids[p][0] == a {
        FirstChild(f, p);
        assert false;
      }
    }
  }

  // ----- the links say everything: they spell out one forest only

  lemma {:induction false} RowPrefix(m: map<Allocation, Links>, s: seq<Allocation>, t: seq<Allocation>, p: Allocation,
                                     n: nat)
    requires Row(m, s, p) && Row(m, t, p) && n <= |s|
    ensures n <= |t| && s[..n] == t[..n]
  {
    if n > 1 {
      RowPrefix(m, s, t, p, n - 1);
      assert Seated(m, s, p, n - 2) && Seated(m, t, p, n - 2);
      assert s[n - 2] == s[..n - 1][n - 2] == t[..n - 1][n - 2] == t[n - 2];
      assert s[..n] == s[..n - 1] + [s[n - 1]] && t[..n] == t[..n - 1] + [t[n - 1]];
    }
  }

  lemma RowIsUnique(m: map<Allocation, Links>, s: seq<Allocation>, t: seq<Allocation>, p: Allocation)
    requires Row(m, s, p) && Row(m, t, p)
    ensures s == t
  {
    RowPrefix(m, s, t, p, |s|);
    RowPrefix(m, t, s, p, |t|);
  }

  lemma SameKids(m: map<Allocation, Links>, f: Forest<Allocation>, g: Forest<Allocation>)
    requires Laid(m, f, {}) && Laid(m, g, {})
    ensures f.kids == g.kids
  {
    forall p | p in f.kids
      ensures f.kids[p] == g.kids[p]
    {
      RowIsUnique(m, f.kids[p], g.kids[p], p);
    }
  }

  lemma ParentsFromKids(f: Forest<Allocation>, g: Forest<Allocation>, c: Allocation)
    requires WellFormed(f) && WellFormed(g) && f.kids == g.kids && c in f.up
    ensures c in g.up && g.up[c] == f.up[c]
  {
    var p := f.up[c];
    At(f, p);
    At(g, p);
  }

  lemma {:induction false} SameAncestry(f: Forest<Allocation>, g: Forest<Allocation>, x: Allocation, p: Allocation,
                                        n: nat)
    requires f.up == g.up
    ensures Ancestor(f, x, p, n) == Ancestor(g, x, p, n)
  {
    if n > 0 && x in f.up {
      SameAncestry(f, g, f.up[x], p, n - 1);
    }
  }

  lemma SubtreesFromParents(f: Forest<Allocation>, g: Forest<Allocation>, p: Allocation, x: Allocation)
    requires WellFormed(f) && WellFormed(g) && f.kids == g.kids && f.up == g.up && p in f.kids && p in f.desc
             && p in g.desc
    requires x in f.desc[p]
    ensures x in g.desc[p]
  {
    hide WellFormed;
    BelowAt(f, x, p);
    SubtreeIsAncestry(f, x, p);
    var n: nat :| Ancestor(f, x, p, n);
    SameAncestry(f, g, x, p, n);
    SubtreeIsAncestry(g, x, p);
  }

  lemma SameParents(f: Forest<Allocation>, g: Forest<Allocation>)
    requires WellFormed(f) && WellFormed(g) && f.kids == g.kids
    ensures f.up == g.up
  {
    hide *;
    forall c | c in f.up
      ensures c in g.up && g.up[c] == f.up[c]
    {
      ParentsFromKids(f, g, c);
    }
    forall c | c in g.up
      ensures c in f.up && g.up[c] == f.up[c]
    {
      ParentsFromKids(g, f, c);
    }
  }

  /** The links of the live allocations determine the forest. */
  lemma LinksDetermineForest(m: map<Allocation, Links>, f: Forest<Allocation>, g: Forest<Allocation>)
    requires WellFormed(f) && WellFormed(g) && Laid(m, f, {}) && Laid(m, g, {})
    ensures f == g
  {
    SameKids(m, f, g);
    SameParents(f, g);
    IsKeyed(f);
    IsKeyed(g);
    hide WellFormed, Laid;
    assert f.desc.Keys == g.desc.Keys;
    hide *;
    forall p | p in f.desc
      ensures f.desc[p] == g.desc[p]
    {
      SameDesc(f, g, p);
    }
    assert f.desc == g.desc;
  }

  lemma SameDesc(f: Forest<Allocation>, g: Forest<Allocation>, p: Allocation)
    requires WellFormed(f) && WellFormed(g) && f.kids == g.kids && f.up == g.up && p in f.kids && p in f.desc
             && p in g.desc
    ensures f.desc[p] == g.desc[p]
  {
    hide WellFormed;
    forall x | x in f.desc[p]
      ensures x in g.desc[p]
    {
      SubtreesFromParents(f, g, p, x);
    }
    forall x | x in g.desc[p]
      ensures x in f.desc[p]
    {
      SubtreesFromParents(g, f, p, x);
    }
  }

  // ----- the links after a node was hung below p, after its children s

  ghost function Hung(m: map<Allocation, Links>, s: seq<Allocation>, p: Allocation, a: Allocation)
    : map<Allocation, Links>
    requires p in m && a in m && forall c | c in s :: c in m
  {
    if s == [] then
      var h := m[p := m[p].(child := a)];
      h[a := h[a].(prev := p, hasParent := true)]
    else
      var last := s[|s| - 1];
      var h := m[last := m[last].(next := a)];
      h[a := h[a].(prev := last)]
  }

  lemma HungRow(m: map<Allocation, Links>, s: seq<Allocation>, p: Allocation, a: Allocation)
    requires Row(m, s, p) && a in m && Single(m[a]) && Distinct(s) && a !in s && p !in s
    ensures forall c | c in s :: c in m
    ensures Row(Hung(m, s, p, a), s + [a], p)
  {
    forall c | c in s
      ensures c in m
    {
      var i :| 0 <= i < |s| && s[i] == c;
      assert Seated(m, s, p, i);
    }
    var h := Hung(m, s, p, a);
    forall i | 0 <= i < |s + [a]|
      ensures Seated(h, s + [a], p, i)
    {
      if i < |s| {
        assert Seated(m, s, p, i);
      }
    }
    if s != [] {
      assert Seated(m, s, p, 0);
    }
  }

  lemma RowStays(m: map<Allocation, Links>, h: map<Allocation, Links>, s: seq<Allocation>, p: Allocation)
    requires Row(m, s, p) && m.Keys <= h.Keys && h[p].child == m[p].child
    requires forall c | c in s && c in m ::
               h[c].prev == m[c].prev && h[c].next == m[c].next && h[c].hasParent == m[c].hasParent
    ensures Row(h, s, p)
  {
    forall i | 0 <= i < |s|
      ensures Seated(h, s, p, i)
    {
      assert Seated(m, s, p, i);
    }
  }

  /** A node is a child of one parent only. */
  lemma Strangers(f: Forest<Allocation>, p: Allocation)
    requires WellFormed(f) && p in f.kids
    ensures Distinct(f.kids[p])
    ensures forall q, c | q in f.kids && c in f.kids[q] :: c in f.up && f.up[c] == q && c in f.kids && c != q
  {
    forall q, c | q in f.kids && c in f.kids[q]
      ensures c in f.up && f.up[c] == q && c in f.kids && c != q
    {
      At(f, q);
      At(f, c);
    }
    At(f, p);
  }

  lemma LinkedKidsAt(f: Forest<Allocation>, a: Allocation, p: Allocation)
    requires a in f.desc && p in f.kids
    ensures Linked(f, a, p).kids == f.kids[p := f.kids[p] + [a]]
    ensures Linked(f, a, p).up == f.up[a := p]
  {
  }

  lemma HungElsewhere(m: map<Allocation, Links>, s: seq<Allocation>, p: Allocation, a: Allocation, x: Allocation)
    requires p in m && a in m && (forall c | c in s :: c in m) && x in m
    ensures Hung(m, s, p, a).Keys == m.Keys
    ensures x != p ==> Hung(m, s, p, a)[x].child == m[x].child
    ensures x != a && x !in s ==> var l, k := Hung(m, s, p, a)[x], m[x];
              l.prev == k.prev && l.next == k.next && l.hasParent == k.hasParent && (Single(k) ==> Single(l))
  {
  }

  lemma HungOther(m: map<Allocation, Links>, f: Forest<Allocation>, a: Allocation, p: Allocation, q: Allocation)
    requires WellFormed(f) && Laid(m, f, {}) && a in f.kids && a !in f.up && p in f.kids && q in f.kids && q != p
    requires forall c | c in f.kids[p] :: c in m
    ensures a in m && p in m && Row(Hung(m, f.kids[p], p, a), f.kids[q], q)
  {
    RowAt(m, f, {}, q);
    hide *;
    Strangers(f, p);
    var h := Hung(m, f.kids[p], p, a);
    HungElsewhere(m, f.kids[p], p, a, q);
    forall c | c in f.kids[q] && c in m
      ensures c in h && h[c].prev == m[c].prev && h[c].next == m[c].next && h[c].hasParent == m[c].hasParent
    {
      HungElsewhere(m, f.kids[p], p, a, c);
    }
    RowStays(m, h, f.kids[q], q);
  }

  /** The row of p with its new member. */
  lemma HungHere(m: map<Allocation, Links>, f: Forest<Allocation>, a: Allocation, p: Allocation)
    requires WellFormed(f) && Laid(m, f, {}) && a in f.kids && a !in f.up && p in f.kids
    ensures m.Keys == f.kids.Keys && forall c | c in f.kids[p] :: c in m
    ensures Row(Hung(m, f.kids[p], p, a), f.kids[p] + [a], p) && Hung(m, f.kids[p], p, a).Keys == m.Keys
  {
    RowAt(m, f, {}, a);
    RowAt(m, f, {}, p);
    hide *;
    Strangers(f, p);
    HungRow(m, f.kids[p], p, a);
    HungElsewhere(m, f.kids[p], p, a, p);
  }

  lemma HungRoot(m: map<Allocation, Links>, f: Forest<Allocation>, a: Allocation, p: Allocation, x: Allocation)
    requires WellFormed(f) && Laid(m, f, {}) && a in f.kids && a !in f.up && p in f.kids && p != a
    requires x in f.kids && x !in f.up && x != a
    ensures m.Keys == f.kids.Keys && forall c | c in f.kids[p] :: c in m
    ensures x in Hung(m, f.kids[p], p, a) && Single(Hung(m, f.kids[p], p, a)[x])
  {
    RowAt(m, f, {}, x);
    hide *;
    Strangers(f, p);
    HungHere(m, f, a, p);
    HungElsewhere(m, f.kids[p], p, a, x);
  }

  lemma HungRows(m: map<Allocation, Links>, f: Forest<Allocation>, a: Allocation, p: Allocation)
    requires WellFormed(f) && Laid(m, f, {}) && a in f.kids && a !in f.up && p in f.kids && p != a && a in f.desc
    ensures m.Keys == f.kids.Keys && forall c | c in f.kids[p] :: c in m
    ensures var g, h := Linked(f, a, p), Hung(m, f.kids[p], p, a);
            h.Keys == g.kids.Keys && forall q | q in g.kids :: Row(h, g.kids[q], q)
  {
    hide *;
    LinkedKidsAt(f, a, p);
    HungHere(m, f, a, p);
    forall q | q in f.kids && q != p
      ensures Row(Hung(m, f.kids[p], p, a), f.kids[q], q)
    {
      HungOther(m, f, a, p, q);
    }
  }

  lemma HungRoots(m: map<Allocation, Links>, f: Forest<Allocation>, a: Allocation, p: Allocation)
    requires WellFormed(f) && Laid(m, f, {}) && a in f.kids && a !in f.up && p in f.kids && p != a && a in f.desc
    ensures m.Keys == f.kids.Keys && forall c | c in f.kids[p] :: c in m
    ensures var g, h := Linked(f, a, p), Hung(m, f.kids[p], p, a);
            forall x | x in g.kids && x !in g.up && x !in {} :: x in h && Single(h[x])
  {
    hide *;
    LinkedKidsAt(f, a, p);
    HungHere(m, f, a, p);
    forall x | x in f.kids && x !in f.up && x != a
      ensures x in Hung(m, f.kids[p], p, a) && Single(Hung(m, f.kids[p], p, a)[x])
    {
      HungRoot(m, f, a, p, x);
    }
  }

  lemma HungLaid(m: map<Allocation, Links>, f: Forest<Allocation>, a: Allocation, p: Allocation)
    requires WellFormed(f) && Laid(m, f, {}) && IsRoot(f, a) && p in f.kids && p != a && a in f.desc
    ensures m.Keys == f.kids.Keys && forall c | c in f.kids[p] :: c in m
    ensures Laid(Hung(m, f.kids[p], p, a), Linked(f, a, p), {})
  {
    assert a in f.kids && a !in f.up;
    hide *;
    HungRows(m, f, a, p);
    HungRoots(m, f, a, p);
    LaidIf(Hung(m, f.kids[p], p, a), Linked(f, a, p), {});
  }

  lemma Linking(m: map<Allocation, Links>, f: Forest<Allocation>, a: Allocation, p: Allocation)
    requires WellFormed(f) && Laid(m, f, {}) && IsRoot(f, a) && p in f.kids && a in f.desc && p !in f.desc[a]
    ensures a in f.kids && m.Keys == f.kids.Keys && Row(m, f.kids[p], p) && a !in f.kids[p] && p != a
    ensures forall c | c in f.kids[p] :: c in m
    ensures Laid(Hung(m, f.kids[p], p, a), Linked(f, a, p), {})
    ensures WellFormed(Linked(f, a, p)) && Linked(f, a, p).kids.Keys == f.kids.Keys
  {
    hide WellFormed, Linked, Row, Hung;
    InOwnSubtree(f, a);
    LinkedWellFormed(f, a, p);
    LinkedKidsAt(f, a, p);
    HungLaid(m, f, a, p);
    RowAt(m, f, {}, p);
    Strangers(f, p);
  }

  // ----- the list of children without one of them

  lemma {:induction false} WithoutAt(s: seq<Allocation>, i: nat)
    requires Distinct(s) && i < |s|
    ensures Without(s, s[i]) == s[..i] + s[i + 1..]
  {
    DistinctTail(s);
    if i == 0 {
      WithoutMembers(s[1..], s[0]);
    } else {
      WithoutAt(s[1..], i - 1);
      assert s[1..][i - 1] == s[i] && s[0] != s[i];
      assert s[..i] == [s[0]] + s[1..][..i - 1] && s[1..][i..] == s[i + 1..];
    }
  }

  // ----- the links after a node was taken out of its row

  ghost predicate Inside(m: map<Allocation, Links>, a: Allocation) {
    a in m && (m[a].prev != null ==> m[a].prev in m) && (m[a].next != null ==> m[a].next in m)
  }

  /** What comes before a leads to what comes after it. */
  ghost function Bypassed(m: map<Allocation, Links>, a: Allocation): map<Allocation, Links>
    requires Inside(m, a)
  {
    var l := m[a];
    if l.prev == null then m
    else if !l.hasParent then m[l.prev := m[l.prev].(next := l.next)]
    else Promoted(m, l.prev, l.next)
  }

  /** The second child of p, if there is one, becomes the first. */
  ghost function Promoted(m: map<Allocation, Links>, p: Allocation, next: Allocation?): map<Allocation, Links>
    requires p in m && (next != null ==> next in m)
  {
    var m0 := m[p := m[p].(child := next)];
    if next == null then m0 else m0[next := m0[next].(hasParent := true)]
  }

  ghost function Unlinked(m: map<Allocation, Links>, a: Allocation): map<Allocation, Links>
    requires Inside(m, a)
  {
    var l, m1 := m[a], Bypassed(m, a);
    if l.next == null then m1 else m1[l.next := m1[l.next].(prev := l.prev)]
  }

  lemma Neighbours(m: map<Allocation, Links>, s: seq<Allocation>, p: Allocation, i: nat)
    requires Row(m, s, p) && i < |s|
    ensures Inside(m, s[i]) && Seated(m, s, p, i)
    ensures i + 1 < |s| ==> Seated(m, s, p, i + 1)
    ensures i > 0 ==> Seated(m, s, p, i - 1)
  {
    assert Seated(m, s, p, i);
    if i + 1 < |s| {
      assert Seated(m, s, p, i + 1);
    }
    if i > 0 {
      assert Seated(m, s, p, i - 1);
    }
  }

  lemma UnlinkedRow(m: map<Allocation, Links>, s: seq<Allocation>, p: Allocation, i: nat)
    requires Row(m, s, p) && Distinct(s) && p !in s && i < |s|
    ensures Inside(m, s[i]) && Row(Unlinked(m, s[i]), s[..i] + s[i + 1..], p)
  {
    Neighbours(m, s, p, i);
    var h, t := Unlinked(m, s[i]), s[..i] + s[i + 1..];
    forall j | 0 <= j < |t|
      ensures Seated(h, t, p, j)
    {
      assert Seated(m, s, p, if j < i then j else j + 1);
    }
  }

  /** Taking a child out changes nothing else but its parent's child and its neighbours. */
  lemma UnlinkedElsewhere(m: map<Allocation, Links>, s: seq<Allocation>, p: Allocation, i: nat, x: Allocation)
    requires Row(m, s, p) && i < |s| && x in m
    ensures Inside(m, s[i]) && Unlinked(m, s[i]).Keys == m.Keys
    ensures x != p ==> Unlinked(m, s[i])[x].child == m[x].child
    ensures x !in s ==> var l, k := Unlinked(m, s[i])[x], m[x];
                        l.prev == k.prev && l.next == k.next && l.hasParent == k.hasParent
  {
    Neighbours(m, s, p, i);
  }

  lemma CutKids(f: Forest<Allocation>, a: Allocation, q: Allocation)
    requires WellFormed(f) && a in f.kids && q in f.kids
    ensures Keyed(f) && Cut(f, a).kids.Keys == f.kids.Keys && Cut(f, a).up == f.up - {a}
    ensures Cut(f, a).kids[q] == if a in f.up && f.up[a] == q then Without(f.kids[q], a) else f.kids[q]
  {
    IsKeyed(f);
    CutAt(f, a, q);
    hide WellFormed;
    Strangers(f, q);
    WithoutMembers(f.kids[q], a);
    if a in f.up {
      NotParent(f, a);
    }
  }

  lemma UnlinkedSingle(m: map<Allocation, Links>, a: Allocation)
    requires a in m && Single(m[a])
    ensures Inside(m, a) && Unlinked(m, a) == m
  {
  }

  lemma UnlinkedLaid(m: map<Allocation, Links>, f: Forest<Allocation>, a: Allocation, loose: set<Allocation>)
    requires WellFormed(f) && Laid(m, f, loose) && a in f.kids && a !in loose
    ensures Keyed(f) && Inside(m, a) && Laid(Unlinked(m, a), Cut(f, a), loose + {a})
  {
    IsKeyed(f);
    hide WellFormed, Keyed, Cut, Unlinked, Seated, Row;
    CutKids(f, a, a);
    if a in f.up {
      UnlinkedChild(m, f, a, loose);
    } else {
      RowAt(m, f, loose, a);
      UnlinkedSingle(m, a);
      forall q | q in f.kids
        ensures Row(m, Cut(f, a).kids[q], q)
      {
        CutKids(f, a, q);
      }
    }
  }

  lemma UnlinkedChild(m: map<Allocation, Links>, f: Forest<Allocation>, a: Allocation, loose: set<Allocation>)
    requires WellFormed(f) && Laid(m, f, loose) && a in f.up
    ensures Keyed(f) && a in f.kids && Inside(m, a) && Laid(Unlinked(m, a), Cut(f, a), loose + {a})
  {
    IsKeyed(f);
    var i := Place(f, a);
    assert a in f.kids;
    hide *;
    CutKids(f, a, a);
    UnlinkedRowAt(m, f, a, loose, i, a);
    forall q | q in f.kids
      ensures Row(Unlinked(m, a), Cut(f, a).kids[q], q)
    {
      UnlinkedRowAt(m, f, a, loose, i, q);
    }
    forall x | x in f.kids && x !in Cut(f, a).up && x !in loose + {a}
      ensures x in Unlinked(m, a) && Single(Unlinked(m, a)[x])
    {
      UnlinkedRootAt(m, f, a, loose, i, x);
    }
    UnlinkedRootAt(m, f, a, loose, i, f.up[a]);
    LaidIf(Unlinked(m, a), Cut(f, a), loose + {a});
  }

  lemma UnlinkedRootAt(m: map<Allocation, Links>, f: Forest<Allocation>, a: Allocation, loose: set<Allocation>,
                       i: nat, x: Allocation)
    requires WellFormed(f) && Laid(m, f, loose) && a in f.up && x in f.kids
    requires f.up[a] in f.kids && i < |f.kids[f.up[a]]| && f.kids[f.up[a]][i] == a
    ensures m.Keys == f.kids.Keys && Inside(m, a) && Unlinked(m, a).Keys == m.Keys
    ensures x !in f.up && x !in loose ==> Single(Unlinked(m, a)[x])
  {
    var p := f.up[a];
    RowAt(m, f, loose, p);
    RowAt(m, f, loose, x);
    hide WellFormed, Unlinked, Seated, Row, Laid;
    Strangers(f, p);
    UnlinkedElsewhere(m, f.kids[p], p, i, x);
  }

  lemma UnlinkedRowAt(m: map<Allocation, Links>, f: Forest<Allocation>, a: Allocation, loose: set<Allocation>, i: nat,
                      q: Allocation)
    requires WellFormed(f) && Laid(m, f, loose) && a in f.up && a in f.kids && q in f.kids && Keyed(f)
    requires f.up[a] in f.kids && i < |f.kids[f.up[a]]| && f.kids[f.up[a]][i] == a
    ensures Inside(m, a) && q in Cut(f, a).kids && Row(Unlinked(m, a), Cut(f, a).kids[q], q)
  {
    var p := f.up[a];
    RowAt(m, f, loose, p);
    RowAt(m, f, loose, q);
    Neighbours(m, f.kids[p], p, i);
    hide WellFormed, Keyed, Cut, Unlinked, Seated;
    CutKids(f, a, q);
    Strangers(f, p);
    if q == p {
      UnlinkedRow(m, f.kids[p], p, i);
      WithoutAt(f.kids[p], i);
    } else {
      var h := Unlinked(m, a);
      UnlinkedElsewhere(m, f.kids[p], p, i, q);
      forall c | c in f.kids[q] && c in m
        ensures h[c].prev == m[c].prev && h[c].next == m[c].next && h[c].hasParent == m[c].hasParent
      {
        UnlinkedElsewhere(m, f.kids[p], p, i, c);
      }
      RowStays(m, h, f.kids[q], q);
    }
  }

  // ----- sizes

  ghost function Sum(s: set<Allocation>): nat {
    if s == {} then 0 else
    var x :| x in s;
    x.size + Sum(s - {x})
  }

  lemma {:induction false} SumWithout(s: set<Allocation>, a: Allocation)
    requires a in s
    ensures Sum(s) == a.size + Sum(s - {a})
  {
    var x :| x in s && Sum(s) == x.size + Sum(s - {x});
    if x != a {
      SumWithout(s - {x}, a);
      SumWithout(s - {a}, x);
      assert s - {x} - {a} == s - {a} - {x};
    }
  }

  lemma {:induction false} SumSplits(s: set<Allocation>, t: set<Allocation>)
    requires t <= s
    ensures Sum(s) == Sum(t) + Sum(s - t)
  {
    if t == {} {
      assert s - t == s;
    } else {
      var a :| a in t;
      SumWithout(s, a);
      SumWithout(t, a);
      SumSplits(s - {a}, t - {a});
      assert s - {a} - (t - {a}) == s - t;
    }
  }

  lemma SumOne(a: Allocation)
    ensures Sum({a}) == a.size
  {
    SumWithout({a}, a);
    assert {a} - {a} == {};
  }

  // ----- a new allocation

  lemma ViewWith(live: set<Allocation>, a: Allocation)
    ensures View(live + {a}) == View(live)[a := LinksOf(a)]
  {
  }

  lemma JoiningRow(m: map<Allocation, Links>, f: Forest<Allocation>, a: Allocation, q: Allocation)
    requires WellFormed(f) && Laid(m, f, {}) && a !in f.kids && q in f.kids
    ensures Row(m[a := Links(false, null, null, null)], f.kids[q], q)
  {
    hide WellFormed, Seated;
    RowAt(m, f, {}, q);
    Strangers(f, q);
    hide Laid;
    RowStays(m, m[a := Links(false, null, null, null)], f.kids[q], q);
  }

  lemma JoiningLaid(m: map<Allocation, Links>, f: Forest<Allocation>, a: Allocation)
    requires WellFormed(f) && Laid(m, f, {}) && a !in f.kids
    ensures Laid(m[a := Links(false, null, null, null)], Added(f, a), {})
  {
    hide WellFormed, Row;
    forall q | q in f.kids
      ensures Row(m[a := Links(false, null, null, null)], f.kids[q], q)
    {
      JoiningRow(m, f, a, q);
    }
    EmptyRow(m[a := Links(false, null, null, null)], a);
  }

  lemma Joining(m: map<Allocation, Links>, f: Forest<Allocation>, a: Allocation)
    requires WellFormed(f) && Laid(m, f, {}) && a !in f.kids
    ensures var g := Added(f, a);
            && WellFormed(g) && IsRoot(g, a) && a in g.desc && g.desc[a] == {a} && g.kids.Keys == f.kids.Keys + {a}
            && g.up == f.up
            && Laid(m[a := Links(false, null, null, null)], g, {})
            && Sum(g.kids.Keys) == Sum(f.kids.Keys) + a.size
  {
    hide WellFormed, Laid, Sum;
    AddedWellFormed(f, a);
    JoiningLaid(m, f, a);
    SumWithout(f.kids.Keys + {a}, a);
    assert f.kids.Keys + {a} - {a} == f.kids.Keys;
  }

  lemma EmptyRow(m: map<Allocation, Links>, a: Allocation)
    requires a in m && m[a].child == null
    ensures Row(m, [], a)
  {
  }

  // ----- destroying a tree, child by child

  /** What freeing the nodes in gone does to the bundling mode. */
  ghost function BaseAfter(base: Allocation?, mode: Bundling, gone: set<Allocation>): (Allocation?, Bundling) {
    if base != null && base in gone then (null, AwaitingAlloc) else (base, mode)
  }

  /** The base, the mode and the bytes freed at some moment. */
  datatype Books = Books(base: Allocation?, mode: Bundling, freed: nat)

  /** The tree of a held all and now holds left; size counts a and what was freed since the
      books stood at b0. */
  ghost predicate Balanced(a: Allocation, all: set<Allocation>, left: set<Allocation>, size: nat, b0: Books, b: Books) {
    && a in left && left <= all
    && size + Sum(left) == a.size + Sum(all)
    && b.freed + a.size == b0.freed + size
    && (b.base, b.mode) == BaseAfter(b0.base, b0.mode, all - left + {a})
  }

  lemma BooksOpen(a: Allocation, all: set<Allocation>, b0: Books, b: Books)
    requires a in all && b.freed == b0.freed && (b.base, b.mode) == BaseAfter(b0.base, b0.mode, {a})
    ensures Balanced(a, all, all, a.size, b0, b)
  {
    assert all - all + {a} == {a};
  }

  lemma BooksGoOn(a: Allocation, all: set<Allocation>, now: set<Allocation>, left: set<Allocation>, size: nat,
                  part: nat, b0: Books, b: Books, b': Books)
    requires Balanced(a, all, now, size, b0, b) && a in left && left <= now && Sum(now) == part + Sum(left)
    requires b'.freed == b.freed + part && (b'.base, b'.mode) == BaseAfter(b.base, b.mode, now - left)
    ensures Balanced(a, all, left, size + part, b0, b')
  {
  }

  /** Only a itself is left; the books close when it is freed, too. */
  lemma BooksClose(a: Allocation, all: set<Allocation>, left: set<Allocation>, size: nat, b0: Books, b: Books)
    requires Balanced(a, all, left, size, b0, b)
    ensures b.base != a
    ensures left == {a} ==> size == Sum(all) && b.freed + a.size == b0.freed + size
    ensures left == {a} ==> (b.base, b.mode) == BaseAfter(b0.base, b0.mode, all)
  {
    SumOne(a);
  }

  lemma BaseGone(base: Allocation?, mode: Bundling, a: Allocation)
    ensures BaseAfter(base, mode, {a}) == if base == a then (null, AwaitingAlloc) else (base, mode)
  {
  }

  lemma BaseSame(base: Allocation?, mode: Bundling, all: set<Allocation>, gone: set<Allocation>)
    requires gone <= all
    ensures BaseAfter(base, mode, all - (all - gone)) == BaseAfter(base, mode, gone)
  {
    assert all - (all - gone) == gone;
  }

  lemma RowHead(m: map<Allocation, Links>, s: seq<Allocation>, p: Allocation)
    requires Row(m, s, p)
    ensures p in m && m[p].child == if s == [] then null else s[0]
  {
  }

  lemma PrunedFewer(g: Forest<Allocation>, c: Allocation)
    requires WellFormed(g) && Keyed(g) && c in g.kids
    ensures Pruned(g, c).kids.Keys <= g.kids.Keys
  {
  }

  lemma Opening(m: map<Allocation, Links>, f: Forest<Allocation>, a: Allocation, loose: set<Allocation>)
    requires WellFormed(f) && Laid(m, f, loose) && a in f.kids && a !in loose && loose <= f.kids.Keys
             && loose !! f.up.Keys
    ensures Keyed(f) && Inside(m, a) && m.Keys == f.kids.Keys
    ensures var g := Cut(f, a);
            && WellFormed(g) && TakenApart(f, a, g) && Laid(Unlinked(m, a), g, loose + {a})
            && loose + {a} <= g.kids.Keys
            && loose + {a} !! g.up.Keys && g.kids.Keys == f.kids.Keys
            && a in f.desc && a in g.desc && g.desc[a] == f.desc[a] && f.desc[a] <= f.kids.Keys && a in f.desc[a]
  {
    hide WellFormed, Unlinked, Laid, Keyed, TakenApart, Cut;
    UnlinkedLaid(m, f, a, loose);
    CutKids(f, a, a);
    CutTakesApart(f, a);
    CutWellFormed(f, a);
    InOwnSubtree(f, a);
    CutAt(f, a, a);
    RowAt(m, f, loose, a);
  }

  lemma Branch(m: map<Allocation, Links>, f: Forest<Allocation>, a: Allocation, g: Forest<Allocation>,
               loose: set<Allocation>)
    requires WellFormed(f) && a in f.kids && Keyed(f) && TakenApart(f, a, g) && Laid(m, g, loose) && loose !! g.up.Keys
    requires a in m && m[a].child != null
    ensures WellFormed(g) && Keyed(g) && a in g.kids && a in g.desc && g.kids[a] != [] && m[a].child == g.kids[a][0]
    ensures var c := g.kids[a][0]; c in g.kids && c in g.desc && c !in loose && g.desc[c] < g.desc[a] && a !in g.desc[c]
    ensures var h := Pruned(g, g.kids[a][0]);
            a in g.desc[a] && TakenApart(f, a, h) && a in h.kids && a in h.desc
            && h.desc[a] == g.desc[a] - g.desc[g.kids[a][0]] && h.kids[a] == g.kids[a][1..]
    ensures m[a].child in m && m[m[a].child].next == if |g.kids[a]| > 1 then g.kids[a][1] else null
    ensures |g.desc[g.kids[a][0]]| < |g.desc[a]| && g.desc[a] - g.desc[g.kids[a][0]] < g.desc[a]
  {
    IsKeyed(g);
    RowAt(m, g, loose, a);
    var s := g.kids[a];
    assert Seated(m, s, a, 0);
    FirstChild(g, a);
    InOwnSubtree(g, a);
    hide WellFormed, Keyed, Pruned, Row, AsPruned;
    CardinalityGrows(g.desc[s[0]], g.desc[a]);
    TakeBranch(f, a, g);
  }

  lemma LastRow(m: map<Allocation, Links>, g: Forest<Allocation>, a: Allocation, loose: set<Allocation>, q: Allocation)
    requires WellFormed(g) && Laid(m, g, loose) && IsRoot(g, a) && q in g.kids && q != a
    ensures Row(m - {a}, g.kids[q], q)
  {
    RowAt(m, g, loose, q);
    hide WellFormed, Laid;
    Strangers(g, q);
    hide IsRoot;
    var s := g.kids[q];
    forall i | 0 <= i < |s|
      ensures Seated(m - {a}, s, q, i)
    {
      assert Seated(m, s, q, i);
    }
  }

  lemma Closing(m: map<Allocation, Links>, f: Forest<Allocation>, a: Allocation, g: Forest<Allocation>,
                loose: set<Allocation>)
    requires WellFormed(f) && Keyed(f) && a in f.kids && TakenApart(f, a, g) && Laid(m, g, loose + {a})
    requires a !in loose && loose <= g.kids.Keys && loose !! g.up.Keys && a in m && m[a].child == null
    ensures a in g.desc && g.desc[a] == {a} && a in g.kids
    ensures Dropped(g, a) == Pruned(f, a) && WellFormed(Pruned(f, a)) && Laid(m - {a}, Pruned(f, a), loose)
    ensures loose <= Pruned(f, a).kids.Keys && loose !! Pruned(f, a).up.Keys
    ensures Pruned(f, a).kids.Keys == g.kids.Keys - {a}
  {
    RowAt(m, g, loose + {a}, a);
    Childless(g, a);
    DropLast(f, a, g);
    PrunedWellFormed(f, a);
    hide WellFormed, Keyed, Pruned, Row, IsRoot;
    forall q | q in g.kids && q != a
      ensures Row(m - {a}, g.kids[q], q)
    {
      LastRow(m, g, a, loose + {a}, q);
    }
  }

  class LinkedMemory {
    var bundling: Bundling
    var baseAlloc: Allocation?

    ghost var forest: Forest<Allocation>
    ghost var issued: nat
    ghost var freed: nat

    /** The links spell out the forest of the live allocations, in bundling mode the base
        is one of them, and every byte allocated is live or freed. */
    ghost predicate Held(loose: set<Allocation>)
      reads this, forest.kids.Keys
    {
      && WellFormed(forest) && Laid(View(forest.kids.Keys), forest, loose)
      && loose <= forest.kids.Keys && loose !! forest.up.Keys
      && (baseAlloc != null <==> bundling == Ok)
      && (baseAlloc != null ==> baseAlloc in forest.kids)
      && issued == freed + Sum(forest.kids.Keys)
    }

    ghost predicate Valid()
      reads this, forest.kids.Keys
    {
      Held({})
    }

    constructor ()
      ensures Valid() && bundling == Disabled && forest.kids == map[] && issued == freed == 0
    {
      bundling, baseAlloc := Disabled, null;
      forest := Forest(map[], map[], map[]);
      issued, freed := 0, 0;
    }

    method Bundle() returns (r: Outcome)
      requires Valid()
      modifies `bundling
      ensures Valid()
      ensures old(bundling) != Disabled ==> r == AlreadyBundling && bundling == old(bundling)
      ensures old(bundling) == Disabled ==> r == Done && bundling == AwaitingAlloc
    {
      hide *;
      HeldAt({});
      if bundling != Disabled {
        return AlreadyBundling;
      }
      bundling := AwaitingAlloc;
      HeldIf({});
      return Done;
    }

    method Commit() returns (r: Outcome)
      requires Valid()
      modifies `bundling, `baseAlloc
      ensures Valid() && bundling == Disabled
      ensures r == if old(bundling) == Disabled then NotBundling else Done
    {
      hide *;
      HeldAt({});
      if bundling == Disabled {
        return NotBundling;
      }
      bundling, baseAlloc := Disabled, null;
      HeldIf({});
      return Done;
    }

    // ----- Link

    /** Hang a below parent, after its other children, unless a is somebody's first child. */
    method Link(a: Allocation, parent: Allocation) returns (r: Outcome)
      requires Valid() && a in forest.kids && parent in forest.kids
      requires !a.hasParent ==> IsRoot(forest, a) && a in forest.desc && parent !in forest.desc[a]
      modifies `forest, forest.kids.Keys
      ensures Valid()
      ensures old(a.hasParent) ==> r == HasParent && forest == old(forest)
      ensures !old(a.hasParent) ==> r == Done && a in old(forest).desc && forest == Linked(old(forest), a, parent)
    {
      hide *;
      if a.hasParent {
        return HasParent;
      }
      ghost var f, live, m := forest, forest.kids.Keys, View(forest.kids.Keys);
      HeldAt({});
      Linking(m, f, a, parent);
      Append(a, parent, f.kids[parent], live);
      forest := Linked(f, a, parent);
      HeldIf({});
      r := Done;
    }

    lemma HeldAt(loose: set<Allocation>)
      requires Valid() || Held(loose)
      ensures Valid() ==> Held({})
      ensures Held(loose) ==> && WellFormed(forest) && Laid(View(forest.kids.Keys), forest, loose)
                              && loose <= forest.kids.Keys && loose !! forest.up.Keys
                              && (baseAlloc != null <==> bundling == Ok)
                              && (baseAlloc != null ==> baseAlloc in forest.kids)
                              && issued == freed + Sum(forest.kids.Keys)
    {
    }

    lemma HeldIf(loose: set<Allocation>)
      requires WellFormed(forest) && Laid(View(forest.kids.Keys), forest, loose)
      requires loose <= forest.kids.Keys && loose !! forest.up.Keys
      requires baseAlloc != null <==> bundling == Ok
      requires baseAlloc != null ==> baseAlloc in forest.kids
      requires issued == freed + Sum(forest.kids.Keys)
      ensures Held(loose) && (loose == {} ==> Valid())
    {
    }

    /** a goes behind the children s of parent. */
    static method Append(a: Allocation, parent: Allocation, ghost s: seq<Allocation>, ghost live: set<Allocation>)
      requires parent in live && a in live && a != parent && a !in s && (forall c | c in s :: c in live)
      requires Row(View(live), s, parent)
      modifies live
      ensures View(live) == Hung(old(View(live)), s, parent, a)
    {
      ghost var m := View(live);
      if parent.child == null {
        parent.child := a;
        a.prev := parent;
        a.hasParent := true;
        return;
      }
      var cur: Allocation := parent.child;
      ghost var i := 0;
      assert Seated(m, s, parent, 0);
      while cur.next != null
        invariant 0 <= i < |s| && cur == s[i] && Seated(m, s, parent, i) && View(live) == m
        decreases |s| - i
      {
        assert Seated(m, s, parent, i + 1);
        cur := cur.next;
        i := i + 1;
      }
      assert i + 1 == |s|;
      cur.next := a;
      a.prev := cur;
    }

    // ----- Free

    /** Take a, with everything below it, out of the row of its siblings. */
    method Unlink(a: Allocation, ghost loose: set<Allocation>)
      requires Held(loose) && a in forest.kids && a !in loose
      modifies `forest, forest.kids.Keys
      ensures Keyed(old(forest)) && forest == Cut(old(forest), a)
      ensures Held(loose + {a}) && TakenApart(old(forest), a, forest) && forest.kids.Keys == old(forest).kids.Keys
      ensures a in old(forest).desc && a in forest.desc && forest.desc[a] == old(forest).desc[a] && a in forest.desc[a]
      ensures WellFormed(old(forest))
    {
      hide *;
      HeldAt(loose);
      ghost var f, live := forest, forest.kids.Keys;
      Opening(View(live), f, a, loose);
      Relink(a, live);
      forest := Cut(f, a);
      HeldIf(loose + {a});
    }

    /** Forget that a was the base, then unlink it. */
    method Detach(a: Allocation, ghost loose: set<Allocation>, ghost b0: Books)
      requires Held(loose) && a in forest.kids && a !in loose && b0 == Books(baseAlloc, bundling, freed)
      modifies `forest, `bundling, `baseAlloc, forest.kids.Keys
      ensures Keyed(old(forest)) && forest == Cut(old(forest), a) && forest.kids.Keys == old(forest).kids.Keys
      ensures Freeing(a, old(forest), loose, a.size, b0) && Left(a) == old(Left(a))
    {
      hide WellFormed, Keyed, TakenApart, Balanced, Held, Cut, BaseAfter;
      HeldAt(loose);
      if baseAlloc == a {
        bundling, baseAlloc := AwaitingAlloc, null;
      }
      HeldIf(loose);
      Unlink(a, loose);
      BaseGone(b0.base, b0.mode, a);
      BooksOpen(a, forest.desc[a], b0, Books(baseAlloc, bundling, freed));
    }

    static method Relink(a: Allocation, ghost live: set<Allocation>)
      requires a in live && Inside(View(live), a)
      modifies live
      ensures View(live) == Unlinked(old(View(live)), a)
    {
      ghost var m := View(live);
      hide Bypassed;
      Bypass(a, live);
      if a.next != null {
        a.next.prev := a.prev;
      }
      assert View(live) == Unlinked(m, a);
    }

    static method Bypass(a: Allocation, ghost live: set<Allocation>)
      requires a in live && Inside(View(live), a)
      modifies live
      ensures View(live) == Bypassed(old(View(live)), a) && a.prev == old(a.prev) && a.next == old(a.next)
    {
      hide Promoted;
      if a.prev != null {
        if a.hasParent {
          Promote(a.prev, a.next, live);
        } else {
          a.prev.next := a.next;
        }
      }
    }

    static method Promote(p: Allocation, next: Allocation?, ghost live: set<Allocation>)
      requires p in live && (next != null ==> next in live)
      modifies live
      ensures View(live) == Promoted(old(View(live)), p, next)
      ensures forall x | x in live :: x.prev == old(x.prev) && x.next == old(x.next)
    {
      p.child := next;
      if next != null {
        next.hasParent := true;
      }
    }

    /** Hand the memory of a back once its subtree, which was cut off the forest f, is gone. */
    ghost method Destroy(a: Allocation, f: Forest<Allocation>, loose: set<Allocation>, size: nat, b0: Books)
      requires Freeing(a, f, loose, size, b0) && a.child == null
      modifies `forest, `freed
      ensures Held(loose) && Keyed(f) && a in f.kids && a in f.desc && forest == Pruned(f, a)
      ensures size == Sum(f.desc[a]) && freed == b0.freed + size
      ensures (baseAlloc, bundling) == BaseAfter(b0.base, b0.mode, f.desc[a])
    {
      hide WellFormed, Keyed, TakenApart, Balanced, Held, Laid, Pruned, BaseAfter, Sum, View;
      HeldAt(loose + {a});
      ghost var g, live := forest, forest.kids.Keys;
      ViewAt(live, a);
      ViewWithout(live, a);
      assert loose <= live && loose !! g.up.Keys;
      Closing(View(live), f, a, g, loose);
      BooksClose(a, f.desc[a], g.desc[a], size, b0, Books(baseAlloc, bundling, freed));
      SumWithout(live, a);
      forest := Pruned(f, a);
      freed := freed + a.size;
      HeldIf(loose);
    }

    /** `alloc->child = next`, which the freed child has already done. */
    static method SetChild(a: Allocation, next: Allocation?, ghost live: set<Allocation>)
      requires a.child == next
      modifies a`child
      ensures View(live) == old(View(live)) && a.child == next
    {
      a.child := next;
    }

    /** Free the first child of a, whose tree is being taken apart. */
    method FreeFirst(a: Allocation, ghost f: Forest<Allocation>, ghost loose: set<Allocation>) returns (size: nat)
      requires Held(loose) && a in forest.kids && a in loose && a.child != null
      requires WellFormed(f) && Keyed(f) && a in f.kids && TakenApart(f, a, forest) && a in forest.desc
      modifies this, forest.kids.Keys
      ensures Held(loose) && a in forest.kids && forest.kids.Keys <= old(forest).kids.Keys
      ensures TakenApart(f, a, forest) && a in forest.desc && a in forest.desc[a]
              && forest.desc[a] < old(forest).desc[a]
      ensures Sum(old(forest).desc[a]) == size + Sum(forest.desc[a])
      ensures freed == old(freed) + size && issued == old(issued)
      ensures (baseAlloc, bundling) == BaseAfter(old(baseAlloc), old(bundling), old(forest).desc[a] - forest.desc[a])
      decreases Left(a), 0
    {
      hide *;
      HeldAt(loose);
      ghost var g := forest;
      ViewAt(g.kids.Keys, a);
      Branch(View(g.kids.Keys), f, a, g, loose);
      ghost var c := g.kids[a][0];
      SumSplits(g.desc[a], g.desc[c]);
      PrunedFewer(g, c);
      ViewAt(g.kids.Keys, c);
      LeftIs(a);
      LeftIs(c);
      var next := a.child.next;
      size := Release(a.child, loose);
      HeldAt(loose);
      RowAt(View(forest.kids.Keys), forest, loose, a);
      RowHead(View(forest.kids.Keys), forest.kids[a], a);
      ViewAt(forest.kids.Keys, a);
      SetChild(a, next, forest.kids.Keys);
      HeldIf(loose);
      BaseSame(old(baseAlloc), old(bundling), g.desc[a], g.desc[c]);
    }

    /** Of the forest f, the tree of a is being freed; size counts a and what is freed since
        the books stood at b0. */
    ghost predicate Freeing(a: Allocation, f: Forest<Allocation>, loose: set<Allocation>, size: nat, b0: Books)
      reads this, forest.kids.Keys
    {
      && WellFormed(f) && Keyed(f) && a in f.kids && a in f.desc && a !in loose
      && Held(loose + {a}) && TakenApart(f, a, forest) && a in forest.kids && a in forest.desc
      && Balanced(a, f.desc[a], forest.desc[a], size, b0, Books(baseAlloc, bundling, freed))
    }

    /** How much is still to be freed. */
    ghost function Left(a: Allocation): nat
      reads `forest
    {
      if a in forest.desc then |forest.desc[a]| else 0
    }

    lemma LeftIs(a: Allocation)
      ensures Left(a) == if a in forest.desc then |forest.desc[a]| else 0
    {
    }

    /** `size += _Free(alloc->child)` */
    method FreeNext(a: Allocation, size: nat, ghost f: Forest<Allocation>, ghost loose: set<Allocation>,
                    ghost b0: Books)
      returns (sum: nat)
      requires Freeing(a, f, loose, size, b0) && a in forest.kids && a.child != null
      modifies this, forest.kids.Keys
      ensures Freeing(a, f, loose, sum, b0) && a in forest.kids && forest.kids.Keys <= old(forest).kids.Keys
      ensures issued == old(issued) && Left(a) < old(Left(a))
      decreases Left(a), 1
    {
      hide WellFormed, Keyed, TakenApart, Balanced, Held;
      ghost var g, b := forest, Books(baseAlloc, bundling, freed);
      var part := FreeFirst(a, f, loose + {a});
      CardinalityGrows(forest.desc[a], g.desc[a]);
      BooksGoOn(a, f.desc[a], g.desc[a], forest.desc[a], size, part, b0, b, Books(baseAlloc, bundling, freed));
      sum := size + part;
    }

    /** Free a and, child by child, everything below it. The nodes in loose are the ones
        whose freeing is under way further up. */
    method Release(a: Allocation, ghost loose: set<Allocation>) returns (size: nat)
      requires Held(loose) && a in forest.kids && a !in loose
      modifies this, forest.kids.Keys
      ensures Keyed(old(forest)) && a in old(forest).desc && forest == Pruned(old(forest), a)
      ensures Held(loose)
      ensures size == Sum(old(forest).desc[a]) && freed == old(freed) + size && issued == old(issued)
      ensures (baseAlloc, bundling) == BaseAfter(old(baseAlloc), old(bundling), old(forest).desc[a])
      decreases Left(a), 2
    {
      hide *;
      ghost var f, live, b0 := forest, forest.kids.Keys, Books(baseAlloc, bundling, freed);
      Detach(a, loose, b0);
      size := a.size;
      while a.child != null
        invariant Freeing(a, f, loose, size, b0) && a in forest.kids && forest.kids.Keys <= live
        invariant issued == old(issued) && Left(a) <= old(Left(a))
        decreases Left(a)
      {
        size := FreeNext(a, size, f, loose, b0);
      }
      Destroy(a, f, loose, size, b0);
    }

    /** Free a with everything below it; the result is the number of bytes given back. */
    method Free(a: Allocation) returns (size: nat)
      requires Valid() && a in forest.kids
      modifies this, forest.kids.Keys
      ensures Keyed(old(forest)) && a in old(forest).desc && forest == Pruned(old(forest), a)
      ensures Valid()
      ensures size == Sum(old(forest).desc[a]) && freed == old(freed) + size && issued == old(issued)
      ensures (baseAlloc, bundling) == BaseAfter(old(baseAlloc), old(bundling), old(forest).desc[a])
    {
      size := Release(a, {});
    }

    // ----- Alloc

    /** A fresh allocation: a root of its own or, behind the base, the base's last child. */
    method Alloc(size: nat) returns (a: Allocation)
      requires Valid()
      modifies this, forest.kids.Keys
      ensures Valid() && fresh(a) && a.size == size && issued == old(issued) + size && freed == old(freed)
      ensures old(bundling) != Ok ==> forest == Added(old(forest), a)
      ensures old(bundling) == Ok ==> var f := Added(old(forest), a);
                a in f.desc && old(baseAlloc) in f.kids && forest == Linked(f, a, old(baseAlloc))
      ensures old(bundling) == AwaitingAlloc ==> bundling == Ok && baseAlloc == a
      ensures old(bundling) != AwaitingAlloc ==> bundling == old(bundling) && baseAlloc == old(baseAlloc)
    {
      hide *;
      HeldAt({});
      a := new Allocation(size);
      ghost var f := forest;
      Joining(View(f.kids.Keys), f, a);
      ViewWith(f.kids.Keys, a);
      issued := issued + size;
      forest := Added(f, a);
      if bundling == AwaitingAlloc {
        bundling, baseAlloc := Ok, a;
        HeldIf({});
      } else if bundling == Ok {
        HeldIf({});
        var r := Link(a, baseAlloc);
      } else {
        HeldIf({});
      }
    }
  }
}
