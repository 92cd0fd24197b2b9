/** The chain structure that the hash table keeps inside its slot array, on values.

    An `Index` is the bookkeeping that the C code never stores: for every home bucket
    the chain of slots that starts there, for every slot its place on its chain, and
    for every key its slot. The three insertion cases of `allocateEntry` are
    transitions between consistent pairs of a slot array and an index. */
module Chains {
  import opened Bits

  type Key = string

  /** The `(u32) -1` that ends a chain. */
  const NO_BUCKET: nat := 0xFFFF_FFFF

  /** An entry; the empty key marks a free slot. */
  datatype Slot<V> = Slot(key: Key, next: nat, data: V)

  datatype Index = Index(chains: seq<seq<nat>>, place: seq<nat>, slotOf: map<Key, nat>)

  /** `hash & mask` for a table of n slots. */
  function Home(hash: Key -> nat, n: nat, key: Key): (b: nat)
    requires n > 0
    ensures b < n
  {
    And(hash(key), n - 1)
  }

  /** Position j of the chain that starts at h: occupied, by a key whose home is h,
      and linked to position j + 1. */
  ghost predicate OnChain<V>(hash: Key -> nat, s: seq<Slot<V>>, ix: Index, h: nat, j: nat)
    requires |ix.chains| == |ix.place| == |s|
    requires h < |s| && j < |ix.chains[h]|
  {
    var chain := ix.chains[h];
    var b := chain[j];
    && b < |s|
    && s[b].key != ""
    && Home(hash, |s|, s[b].key) == h
    && ix.place[b] == j
    && s[b].next == (if j + 1 < |chain| then chain[j + 1] else NO_BUCKET)
    && (j == 0 ==> b == h)
  }

  /** A free slot links nowhere; an occupied one is at its place on the chain of its
      key's home and is the slot of its key. */
  ghost predicate SlotOk<V>(hash: Key -> nat, s: seq<Slot<V>>, ix: Index, b: nat)
    requires |ix.chains| == |ix.place| == |s|
    requires b < |s|
  {
    if s[b].key == "" then s[b].next == NO_BUCKET
    else
      var chain := ix.chains[Home(hash, |s|, s[b].key)];
      && ix.place[b] < |chain|
      && chain[ix.place[b]] == b
      && s[b].key in ix.slotOf
      && ix.slotOf[s[b].key] == b
  }

  ghost predicate Consistent<V>(hash: Key -> nat, s: seq<Slot<V>>, ix: Index) {
    && |ix.chains| == |ix.place| == |s|
    && |s| < NO_BUCKET
    && (forall h, j ::
          0 <= h < |s| && 0 <= j < |ix.chains[h]| ==> OnChain(hash, s, ix, h, j))
    && (forall b :: 0 <= b < |s| ==> SlotOk(hash, s, ix, b))
    && Keyed(s, ix)
  }

  /** Every key of the index sits in its slot. */
  ghost predicate Keyed<V>(s: seq<Slot<V>>, ix: Index) {
    forall k {:trigger ix.slotOf[k]} :: k in ix.slotOf ==>
      ix.slotOf[k] < |s| && s[ix.slotOf[k]].key == k && k != ""
  }

  /** The map that the slots represent. */
  ghost function Contents<V>(s: seq<Slot<V>>, ix: Index): map<Key, V>
    requires Keyed(s, ix)
  {
    map k | k in ix.slotOf :: s[ix.slotOf[k]].data
  }

  /** The keys along a list of slots. */
  ghost function KeysAlong<V>(s: seq<Slot<V>>, chain: seq<nat>): (keys: seq<Key>)
    requires forall j | 0 <= j < |chain| :: chain[j] < |s|
    ensures |keys| == |chain|
    ensures forall j | 0 <= j < |chain| :: keys[j] == s[chain[j]].key
  {
    seq(|chain|, j requires 0 <= j < |chain| => s[chain[j]].key)
  }

  /** The keys on the chain of a home bucket, in chain order. */
  ghost function KeysAt<V>(hash: Key -> nat, s: seq<Slot<V>>, ix: Index, h: nat): seq<Key>
    requires Consistent(hash, s, ix) && h < |s|
  {
    ChainFacts(hash, s, ix, h);
    KeysAlong(s, ix.chains[h])
  }

  ghost function FreeSlots<V>(s: seq<Slot<V>>): set<nat> {
    set b: nat | b < |s| && s[b].key == ""
  }

  /** What every insertion does, whichever of the three cases it takes: it adds
      the pair to the map, appends the key to the key chain of its home, and
      leaves the key chain of every other home as it was. */
  ghost predicate Inserted<V>(hash: Key -> nat, s: seq<Slot<V>>, ix: Index,
                              s': seq<Slot<V>>, ix': Index, key: Key, v: V)
    requires Consistent(hash, s, ix)
  {
    && |s'| == |s|
    && Consistent(hash, s', ix')
    && Contents(s', ix') == Contents(s, ix)[key := v]
    && |ix'.slotOf| == |ix.slotOf| + 1
    && forall h | 0 <= h < |s| ::
         KeysAt(hash, s', ix', h)
         == KeysAt(hash, s, ix, h) + (if h == Home(hash, |s|, key) then [key] else [])
  }

  // ----- what consistency says about the array alone

  /** The bucket reached from b by following `next` n times. */
  ghost function Walk<V>(s: seq<Slot<V>>, b: nat, n: nat): nat
    decreases n
  {
    if n == 0 || b >= |s| then b else Walk(s, s[b].next, n - 1)
  }

  /** The links themselves spell out the chains: from its home bucket every chain is
      walked slot by slot and then ends, so no chain is cyclic. */
  lemma {:induction false} WalkIsChain<V>(hash: Key -> nat, s: seq<Slot<V>>, ix: Index, h: nat, from: nat, n: nat)
    requires Consistent(hash, s, ix) && h < |s|
    requires from + n <= |ix.chains[h]| && from < |ix.chains[h]|
    ensures Walk(s, ix.chains[h][from], n) == if from + n < |ix.chains[h]| then ix.chains[h][from + n] else NO_BUCKET
    decreases n
  {
    ChainFacts(hash, s, ix, h);
    if n > 0 {
      assert OnChain(hash, s, ix, h, from);
      if from + 1 < |ix.chains[h]| {
        WalkIsChain(hash, s, ix, h, from + 1, n - 1);
      }
    }
  }

  /** A bucket that holds a key whose home it is: the start of a chain. */
  ghost predicate StartsChain<V>(hash: Key -> nat, s: seq<Slot<V>>, h: nat) {
    h < |s| && s[h].key != "" && Home(hash, |s|, s[h].key) == h
  }

  /** Every occupied slot is reached from the home bucket of its key, by exactly one
      number of steps, and from no other start of a chain. */
  lemma OnExactlyOneChain<V>(hash: Key -> nat, s: seq<Slot<V>>, ix: Index, b: nat)
    requires Consistent(hash, s, ix) && b < |s| && s[b].key != ""
    ensures StartsChain(hash, s, Home(hash, |s|, s[b].key))
    ensures b < |ix.place| && Walk(s, Home(hash, |s|, s[b].key), ix.place[b]) == b
    ensures forall h: nat, n: nat | StartsChain(hash, s, h) && Walk(s, h, n) == b ::
              h == Home(hash, |s|, s[b].key) && n == ix.place[b]
  {
    hide StartsChain;
    ReachedFromHome(hash, s, ix, b);
    forall h: nat, n: nat | StartsChain(hash, s, h) && Walk(s, h, n) == b
      ensures h == Home(hash, |s|, s[b].key) && n == ix.place[b]
    {
      WalkMeets(hash, s, ix, h, n, b);
    }
  }

  lemma ReachedFromHome<V>(hash: Key -> nat, s: seq<Slot<V>>, ix: Index, b: nat)
    requires Consistent(hash, s, ix) && b < |s| && s[b].key != ""
    ensures StartsChain(hash, s, Home(hash, |s|, s[b].key))
    ensures Walk(s, Home(hash, |s|, s[b].key), ix.place[b]) == b
  {
    hide Consistent;
    var h := Home(hash, |s|, s[b].key);
    SlotOfKey(hash, s, ix, b);
    StartOfChain(hash, s, ix, s[b].key);
    HomeOccupied(hash, s, ix, h);
    WalkIsChain(hash, s, ix, h, 0, ix.place[b]);
  }

  lemma WalkMeets<V>(hash: Key -> nat, s: seq<Slot<V>>, ix: Index, h: nat, n: nat, b: nat)
    requires Consistent(hash, s, ix) && b < |s|
    requires StartsChain(hash, s, h) && Walk(s, h, n) == b
    ensures h == Home(hash, |s|, s[b].key) && n == ix.place[b]
  {
    SlotOfKey(hash, s, ix, h);
    StartOfChain(hash, s, ix, s[h].key);
    HomeOccupied(hash, s, ix, h);
    if n < |ix.chains[h]| {
      WalkIsChain(hash, s, ix, h, 0, n);
      assert OnChain(hash, s, ix, h, n);
    } else {
      WalkIsChain(hash, s, ix, h, 0, |ix.chains[h]|);
      WalkFurther(s, h, |ix.chains[h]|, n);
      assert false;
    }
  }

  /** A walk that has left the array stays where it is. */
  lemma {:induction false} WalkFurther<V>(s: seq<Slot<V>>, b: nat, m: nat, n: nat)
    requires m <= n && Walk(s, b, m) >= |s|
    ensures Walk(s, b, n) == Walk(s, b, m)
    decreases m
  {
    if m > 0 && b < |s| {
      WalkFurther(s, s[b].next, m - 1, n - 1);
    }
  }

  ghost function EmptyIndex(n: nat): Index {
    Index(seq(n, _ => []), seq(n, _ => 0), map[])
  }

  lemma EmptyTable<V>(hash: Key -> nat, s: seq<Slot<V>>)
    requires |s| < NO_BUCKET
    requires forall b | 0 <= b < |s| :: s[b].key == "" && s[b].next == NO_BUCKET
    ensures Consistent(hash, s, EmptyIndex(|s|))
    ensures Contents(s, EmptyIndex(|s|)) == map[]
    ensures forall b: nat :: b in FreeSlots(s) <==> b < |s|
  {
  }

  // ----- case 1: the home bucket is free

  ghost function FreshIndex(ix: Index, b: nat, key: Key): Index
    requires |ix.chains| == |ix.place| && b < |ix.chains|
  {
    Index(ix.chains[b := [b]], ix.place[b := 0], ix.slotOf[key := b])
  }

  lemma FreshBucketConsistent<V>(hash: Key -> nat, s: seq<Slot<V>>, ix: Index, b: nat, key: Key, v: V)
    requires Consistent(hash, s, ix)
    requires key != "" && key !in ix.slotOf
    requires b < |s| && b == Home(hash, |s|, key) && s[b].key == ""
    ensures Consistent(hash, s[b := Slot(key, NO_BUCKET, v)], FreshIndex(ix, b, key))
  {
    var s', ix' := s[b := Slot(key, NO_BUCKET, v)], FreshIndex(ix, b, key);
    if ix.chains[b] != [] { HomeOccupied(hash, s, ix, b); assert false; }
    forall h, j | 0 <= h < |s| && 0 <= j < |ix'.chains[h]|
      ensures OnChain(hash, s', ix', h, j)
    {
      if h != b {
        assert OnChain(hash, s, ix, h, j);
      }
    }
    forall i | 0 <= i < |s|
      ensures SlotOk(hash, s', ix', i)
    {
      assert SlotOk(hash, s, ix, i);
    }
    assert Keyed(s', ix');
  }

  lemma FreshBucket<V>(hash: Key -> nat, s: seq<Slot<V>>, ix: Index, b: nat, key: Key, v: V)
    requires Consistent(hash, s, ix)
    requires key != "" && key !in ix.slotOf
    requires b < |s| && b == Home(hash, |s|, key) && s[b].key == ""
    ensures Inserted(hash, s, ix, s[b := Slot(key, NO_BUCKET, v)], FreshIndex(ix, b, key), key, v)
  {
    var s', ix' := s[b := Slot(key, NO_BUCKET, v)], FreshIndex(ix, b, key);
    FreshBucketConsistent(hash, s, ix, b, key, v);
    if ix.chains[b] != [] { HomeOccupied(hash, s, ix, b); assert false; }
    forall h | 0 <= h < |s|
      ensures KeysAt(hash, s', ix', h) == KeysAt(hash, s, ix, h) + (if h == b then [key] else [])
    {
      ChainFacts(hash, s, ix, h);
      if h == b {
        assert OnChain(hash, s', ix', b, 0);
      } else {
        assert ix'.chains[h] == ix.chains[h];
      }
    }
  }

  /** A chain starts at its home, which is therefore occupied. */
  lemma HomeOccupied<V>(hash: Key -> nat, s: seq<Slot<V>>, ix: Index, b: nat)
    requires Consistent(hash, s, ix) && b < |s| && ix.chains[b] != []
    ensures ix.chains[b][0] == b && s[b].key != "" && Home(hash, |s|, s[b].key) == b
  {
    assert OnChain(hash, s, ix, b, 0);
  }

  /** The whole chain of h at once. */
  lemma ChainFacts<V>(hash: Key -> nat, s: seq<Slot<V>>, ix: Index, h: nat)
    requires Consistent(hash, s, ix) && h < |s|
    ensures forall j | 0 <= j < |ix.chains[h]| :: OnChain(hash, s, ix, h, j)
    ensures forall j | 0 <= j < |ix.chains[h]| :: ix.chains[h][j] < |s| && s[ix.chains[h][j]].key != ""
  {
    forall j | 0 <= j < |ix.chains[h]|
      ensures ix.chains[h][j] < |s| && s[ix.chains[h][j]].key != ""
    {
      assert OnChain(hash, s, ix, h, j);
    }
  }

  /** A stored key is found at or after the start of the chain of its home. */
  lemma StartOfChain<V>(hash: Key -> nat, s: seq<Slot<V>>, ix: Index, key: Key)
    requires Consistent(hash, s, ix) && key in ix.slotOf
    ensures var h, b := Home(hash, |s|, key), ix.slotOf[key];
            && |ix.place| == |ix.chains| == |s|
            && b < |s| && s[b].key == key
            && ix.place[b] < |ix.chains[h]| && ix.chains[h][ix.place[b]] == b
            && s[h].key != "" && Home(hash, |s|, s[h].key) == h && ix.place[h] == 0
  {
    var h, b := Home(hash, |s|, key), ix.slotOf[key];
    assert SlotOk(hash, s, ix, b);
    assert OnChain(hash, s, ix, h, 0);
  }

  lemma SlotOfKey<V>(hash: Key -> nat, s: seq<Slot<V>>, ix: Index, b: nat)
    requires Consistent(hash, s, ix) && b < |s| && s[b].key != ""
    ensures s[b].key in ix.slotOf && ix.slotOf[s[b].key] == b && |ix.chains| == |ix.place| == |s|
  {
    assert SlotOk(hash, s, ix, b);
  }

  // ----- case 2: the home bucket holds a key whose home it is; extend its chain

  ghost predicate CanAppend<V>(hash: Key -> nat, s: seq<Slot<V>>, ix: Index, b: nat, e: nat, key: Key) {
    && Consistent(hash, s, ix)
    && key != "" && key !in ix.slotOf
    && b < |s| && b == Home(hash, |s|, key) && s[b].key != "" && b == Home(hash, |s|, s[b].key)
    && e < |s| && s[e].key == ""
  }

  ghost function AppendSlots<V>(s: seq<Slot<V>>, last: nat, e: nat, key: Key, v: V): seq<Slot<V>>
    requires last < |s| && e < |s|
  {
    s[last := s[last].(next := e)][e := Slot(key, NO_BUCKET, v)]
  }

  ghost function AppendIndex(ix: Index, b: nat, e: nat, key: Key): Index
    requires |ix.chains| == |ix.place| && b < |ix.chains| && e < |ix.chains|
  {
    Index(ix.chains[b := ix.chains[b] + [e]], ix.place[e := |ix.chains[b]|], ix.slotOf[key := e])
  }

  /** The chain of an occupied home bucket is not empty; its last slot. */
  ghost function Last<V>(hash: Key -> nat, s: seq<Slot<V>>, ix: Index, b: nat): (last: nat)
    requires Consistent(hash, s, ix)
    requires b < |s| && s[b].key != "" && b == Home(hash, |s|, s[b].key)
    ensures last < |s| && s[last].key != ""
    ensures ix.chains[b] != [] && ix.chains[b][|ix.chains[b]| - 1] == last
  {
    assert SlotOk(hash, s, ix, b);
    ChainFacts(hash, s, ix, b);
    ix.chains[b][|ix.chains[b]| - 1]
  }

  lemma AppendConsistent<V>(hash: Key -> nat, s: seq<Slot<V>>, ix: Index, b: nat, e: nat, key: Key, v: V)
    requires CanAppend(hash, s, ix, b, e, key)
    ensures Consistent(hash, AppendSlots(s, Last(hash, s, ix, b), e, key, v), AppendIndex(ix, b, e, key))
  {
    var last := Last(hash, s, ix, b);
    var s', ix' := AppendSlots(s, last, e, key, v), AppendIndex(ix, b, e, key);
    assert OnChain(hash, s, ix, b, |ix.chains[b]| - 1);
    forall h, j | 0 <= h < |s| && 0 <= j < |ix'.chains[h]|
      ensures OnChain(hash, s', ix', h, j)
    {
      if j < |ix.chains[h]| {
        assert OnChain(hash, s, ix, h, j);
      }
    }
    forall i | 0 <= i < |s|
      ensures SlotOk(hash, s', ix', i)
    {
      assert SlotOk(hash, s, ix, i);
    }
    assert Keyed(s', ix');
  }

  lemma AppendBucket<V>(hash: Key -> nat, s: seq<Slot<V>>, ix: Index, b: nat, e: nat, key: Key, v: V)
    requires CanAppend(hash, s, ix, b, e, key)
    ensures Inserted(hash, s, ix,
              AppendSlots(s, Last(hash, s, ix, b), e, key, v), AppendIndex(ix, b, e, key), key, v)
  {
    var s', ix' := AppendSlots(s, Last(hash, s, ix, b), e, key, v), AppendIndex(ix, b, e, key);
    AppendConsistent(hash, s, ix, b, e, key, v);
    forall h | 0 <= h < |s|
      ensures KeysAt(hash, s', ix', h) == KeysAt(hash, s, ix, h) + (if h == b then [key] else [])
    {
      ChainFacts(hash, s, ix, h);
    }
  }

  // ----- case 3: the home bucket holds a foreign key; move that one away

  ghost predicate CanEvict<V>(hash: Key -> nat, s: seq<Slot<V>>, ix: Index, b: nat, e: nat, key: Key) {
    && Consistent(hash, s, ix)
    && key != "" && key !in ix.slotOf
    && b < |s| && b == Home(hash, |s|, key) && s[b].key != "" && b != Home(hash, |s|, s[b].key)
    && e < |s| && s[e].key == ""
  }

  /** The slot before a foreign occupant on that occupant's chain. */
  ghost function Predecessor<V>(hash: Key -> nat, s: seq<Slot<V>>, ix: Index, b: nat): (prev: nat)
    requires Consistent(hash, s, ix)
    requires b < |s| && s[b].key != "" && b != Home(hash, |s|, s[b].key)
    ensures prev < |s| && s[prev].key != "" && s[prev].next == b && prev != b
    ensures 0 < ix.place[b] < |ix.chains[Home(hash, |s|, s[b].key)]|
    ensures prev == ix.chains[Home(hash, |s|, s[b].key)][ix.place[b] - 1]
  {
    var r := Home(hash, |s|, s[b].key);
    assert SlotOk(hash, s, ix, b);
    assert OnChain(hash, s, ix, r, ix.place[b]);
    assert OnChain(hash, s, ix, r, ix.place[b] - 1);
    ix.chains[r][ix.place[b] - 1]
  }

  ghost function EvictSlots<V>(s: seq<Slot<V>>, prev: nat, b: nat, e: nat, key: Key, v: V): seq<Slot<V>>
    requires prev < |s| && b < |s| && e < |s|
  {
    s[e := s[b]][prev := s[prev].(next := e)][b := Slot(key, NO_BUCKET, v)]
  }

  ghost function EvictIndex(ix: Index, r: nat, b: nat, e: nat, moved: Key, key: Key): Index
    requires |ix.chains| == |ix.place| && r < |ix.chains| && b < |ix.chains| && e < |ix.chains|
    requires ix.place[b] < |ix.chains[r]|
  {
    var chain: seq<nat> := ix.chains[r][ix.place[b] := e];
    Index(ix.chains[r := chain][b := [b]],
          ix.place[e := ix.place[b]][b := 0],
          ix.slotOf[moved := e][key := b])
  }

  ghost function EvictSlotsAt<V>(hash: Key -> nat, s: seq<Slot<V>>, ix: Index, b: nat, e: nat, key: Key, v: V)
    : seq<Slot<V>>
    requires CanEvict(hash, s, ix, b, e, key)
  {
    EvictSlots(s, Predecessor(hash, s, ix, b), b, e, key, v)
  }

  ghost function EvictIndexAt<V>(hash: Key -> nat, s: seq<Slot<V>>, ix: Index, b: nat, e: nat, key: Key): (ix': Index)
    requires CanEvict(hash, s, ix, b, e, key)
    ensures |ix'.chains| == |ix'.place| == |s|
  {
    var _ := Predecessor(hash, s, ix, b);
    EvictIndex(ix, Home(hash, |s|, s[b].key), b, e, s[b].key, key)
  }

  lemma EvictOnChain<V>(hash: Key -> nat, s: seq<Slot<V>>, ix: Index, b: nat, e: nat, key: Key, v: V, h: nat, j: nat)
    requires CanEvict(hash, s, ix, b, e, key)
    requires h < |s|
    requires var ix' := EvictIndexAt(hash, s, ix, b, e, key); j < |ix'.chains[h]|
    ensures OnChain(hash, EvictSlotsAt(hash, s, ix, b, e, key, v), EvictIndexAt(hash, s, ix, b, e, key), h, j)
  {
    var r, p, _ := Home(hash, |s|, s[b].key), ix.place[b], Predecessor(hash, s, ix, b);
    assert OnChain(hash, s, ix, r, p) && OnChain(hash, s, ix, r, p - 1);
    if h != b {
      assert OnChain(hash, s, ix, h, j);
    }
  }

  lemma EvictSlotOk<V>(hash: Key -> nat, s: seq<Slot<V>>, ix: Index, b: nat, e: nat, key: Key, v: V, i: nat)
    requires CanEvict(hash, s, ix, b, e, key)
    requires i < |s|
    ensures SlotOk(hash, EvictSlotsAt(hash, s, ix, b, e, key, v), EvictIndexAt(hash, s, ix, b, e, key), i)
  {
    assert SlotOk(hash, s, ix, i) && SlotOk(hash, s, ix, b);
    if ix.chains[b] != [] { HomeOccupied(hash, s, ix, b); assert false; }
  }

  lemma EvictConsistent<V>(hash: Key -> nat, s: seq<Slot<V>>, ix: Index, b: nat, e: nat, key: Key, v: V)
    requires CanEvict(hash, s, ix, b, e, key)
    ensures Consistent(hash, EvictSlotsAt(hash, s, ix, b, e, key, v), EvictIndexAt(hash, s, ix, b, e, key))
  {
    var s', ix' := EvictSlotsAt(hash, s, ix, b, e, key, v), EvictIndexAt(hash, s, ix, b, e, key);
    forall h, j | 0 <= h < |s| && 0 <= j < |ix'.chains[h]|
      ensures OnChain(hash, s', ix', h, j)
    {
      EvictOnChain(hash, s, ix, b, e, key, v, h, j);
    }
    forall i | 0 <= i < |s|
      ensures SlotOk(hash, s', ix', i)
    {
      EvictSlotOk(hash, s, ix, b, e, key, v, i);
    }
    assert Keyed(s', ix') by {
      assert SlotOk(hash, s, ix, b);
    }
  }

  lemma EvictBucket<V>(hash: Key -> nat, s: seq<Slot<V>>, ix: Index, b: nat, e: nat, key: Key, v: V)
    requires CanEvict(hash, s, ix, b, e, key)
    ensures Inserted(hash, s, ix, EvictSlotsAt(hash, s, ix, b, e, key, v), EvictIndexAt(hash, s, ix, b, e, key), key, v)
  {
    var s', ix' := EvictSlotsAt(hash, s, ix, b, e, key, v), EvictIndexAt(hash, s, ix, b, e, key);
    EvictConsistent(hash, s, ix, b, e, key, v);
    if ix.chains[b] != [] { HomeOccupied(hash, s, ix, b); assert false; }
    forall h | 0 <= h < |s|
      ensures KeysAt(hash, s', ix', h) == KeysAt(hash, s, ix, h) + (if h == b then [key] else [])
    {
      EvictKeys(hash, s, ix, b, e, key, v, h);
    }
    assert SlotOk(hash, s, ix, b);
  }

  lemma EvictKeys<V>(hash: Key -> nat, s: seq<Slot<V>>, ix: Index, b: nat, e: nat, key: Key, v: V, h: nat)
    requires CanEvict(hash, s, ix, b, e, key)
    requires h < |s| && ix.chains[b] == []
    requires Consistent(hash, EvictSlotsAt(hash, s, ix, b, e, key, v), EvictIndexAt(hash, s, ix, b, e, key))
    ensures KeysAt(hash, EvictSlotsAt(hash, s, ix, b, e, key, v), EvictIndexAt(hash, s, ix, b, e, key), h)
         == KeysAt(hash, s, ix, h) + (if h == b then [key] else [])
  {
    var s', ix' := EvictSlotsAt(hash, s, ix, b, e, key, v), EvictIndexAt(hash, s, ix, b, e, key);
    if h == b {
      assert ix'.chains[b] == [b];
    } else {
      ChainFacts(hash, s, ix, h);
      ChainFacts(hash, s', ix', h);
      forall j | 0 <= j < |ix.chains[h]|
        ensures s'[ix'.chains[h][j]].key == s[ix.chains[h][j]].key
      {
        assert OnChain(hash, s, ix, h, j) && SlotOk(hash, s, ix, b);
      }
    }
  }

  // ----- keys that sit in their home bucket

  /** Every key that sits in its home bucket stays there. */
  ghost predicate HomeKept(hash: Key -> nat, n: nat, ix: Index, ix': Index)
    requires n > 0
  {
    forall k | k in ix.slotOf && ix.slotOf[k] == Home(hash, n, k) :: k in ix'.slotOf && ix'.slotOf[k] == ix.slotOf[k]
  }

  lemma FreshKeepsHome(hash: Key -> nat, n: nat, ix: Index, b: nat, key: Key)
    requires n > 0 && |ix.chains| == |ix.place| && b < |ix.chains| && key !in ix.slotOf
    ensures HomeKept(hash, n, ix, FreshIndex(ix, b, key))
  {
  }

  lemma AppendKeepsHome(hash: Key -> nat, n: nat, ix: Index, b: nat, e: nat, key: Key)
    requires n > 0 && |ix.chains| == |ix.place| && b < |ix.chains| && e < |ix.chains| && key !in ix.slotOf
    ensures HomeKept(hash, n, ix, AppendIndex(ix, b, e, key))
  {
  }

  /** Only a foreign occupant is moved. */
  lemma EvictKeepsHome<V>(hash: Key -> nat, s: seq<Slot<V>>, ix: Index, b: nat, e: nat, key: Key)
    requires CanEvict(hash, s, ix, b, e, key)
    ensures HomeKept(hash, |s|, ix, EvictIndexAt(hash, s, ix, b, e, key))
  {
    SlotOfKey(hash, s, ix, b);
    hide Consistent;
  }
}
