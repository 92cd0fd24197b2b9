/** The insert-only chained hash table of src/HashTable.c (the OptimizedBitmap
    variant with the default load limit of 0.85).

    The hash function is an arbitrary total function. A pointer to an entry is
    its bucket number; the pair `entries`, `index` is described in `Chains`. */
module HashTable {
  import opened Wrappers
  import opened Bits
  import opened Chains
  import opened Sets

  /** The largest size whose computation `1 << i` does not overflow an int. */
  const MAX_SIZE := 0x4000_0000

  ghost predicate IsPow2(n: nat) {
    exists k: nat :: n == Pow2(k)
  }

  lemma MaxSizeIsPow2()
    ensures Pow2(30) == MAX_SIZE
  {
    assert Pow2(10) == 1024;
    assert Pow2(20) == 1024 * 1024;
  }

  // ----- the free-slot bitmap

  /** Bit j of word w stands for slot 32 * w + j, and is set iff that slot is free. */
  ghost predicate BitmapAgrees(bitmap: seq<Word>, free: set<nat>) {
    forall w: nat, j: nat {:trigger bitmap[w][j]} | w < |bitmap| && j < 32 :: bitmap[w][j] <==> 32 * w + j in free
  }

  ghost predicate ZeroAbove(bitmap: seq<Word>, upper: nat) {
    forall w | upper < w < |bitmap| :: !NonZero(bitmap[w])
  }

  lemma BitmapTake(bitmap: seq<Word>, free: set<nat>, w: nat, j: nat)
    requires BitmapAgrees(bitmap, free) && w < |bitmap| && j < 32
    ensures BitmapAgrees(bitmap[w := ClearBit(bitmap[w], j)], free - {32 * w + j})
    ensures forall u | ZeroAbove(bitmap, u) :: ZeroAbove(bitmap[w := ClearBit(bitmap[w], j)], u)
  {
    var bitmap' := bitmap[w := ClearBit(bitmap[w], j)];
    forall u | ZeroAbove(bitmap, u)
      ensures ZeroAbove(bitmap', u)
    {
      if w > u {
        assert !NonZero(bitmap[w]);
      }
    }
  }

  /** If every word is zero then no slot is free. */
  lemma NothingFree<V>(bitmap: seq<Word>, s: seq<Slot<V>>)
    requires BitmapAgrees(bitmap, FreeSlots(s)) && |s| <= 32 * |bitmap|
    requires forall w | 0 <= w < |bitmap| :: !NonZero(bitmap[w])
    ensures FreeSlots(s) == {}
  {
    forall b: nat | b < |s|
      ensures b !in FreeSlots(s)
    {
      var w, j := b / 32, b % 32;
      assert !bitmap[w][j];
      assert 32 * w + j == b;
    }
  }

  /** A table that is not full has a free slot. */
  lemma {:induction false} SomeSlotFree<V>(hash: Key -> nat, s: seq<Slot<V>>, ix: Index)
    requires Consistent(hash, s, ix) && |ix.slotOf| < |s|
    ensures FreeSlots(s) != {}
  {
    if FreeSlots(s) == {} {
      forall b: nat | b < |s|
        ensures s[b].key != ""
      {
        assert b !in FreeSlots(s);
      }
      DistinctKeys(hash, s, ix, |s|);
    }
  }

  lemma {:induction false} DistinctKeys<V>(hash: Key -> nat, s: seq<Slot<V>>, ix: Index, n: nat)
    requires Consistent(hash, s, ix) && n <= |s|
    requires forall b | 0 <= b < n :: s[b].key != ""
    ensures |ix.slotOf| >= n
  {
    var keys := set b | 0 <= b < n :: s[b].key;
    KeySetSize(hash, s, ix, n);
    assert keys <= ix.slotOf.Keys by {
      forall b | 0 <= b < n
        ensures s[b].key in ix.slotOf
      {
        SlotOfKey(hash, s, ix, b);
      }
    }
    CardinalityGrows(keys, ix.slotOf.Keys);
  }

  lemma {:induction false} KeySetSize<V>(hash: Key -> nat, s: seq<Slot<V>>, ix: Index, n: nat)
    requires Consistent(hash, s, ix) && n <= |s|
    requires forall b | 0 <= b < n :: s[b].key != ""
    ensures |set b | 0 <= b < n :: s[b].key| == n
  {
    if n > 0 {
      KeySetSize(hash, s, ix, n - 1);
      var before := set b | 0 <= b < n - 1 :: s[b].key;
      assert (set b | 0 <= b < n :: s[b].key) == before + {s[n - 1].key};
      forall b | 0 <= b < n - 1
        ensures s[b].key != s[n - 1].key
      {
        SlotOfKey(hash, s, ix, b);
        SlotOfKey(hash, s, ix, n - 1);
      }
    }
  }

  /** Filling one free slot, whatever else moves, takes one slot from the free ones. */
  lemma FillFree<V>(s: seq<Slot<V>>, s': seq<Slot<V>>, e: nat)
    requires |s| == |s'| && e < |s|
    requires forall b | 0 <= b < |s| :: s'[b].key == "" <==> s[b].key == "" && b != e
    ensures FreeSlots(s') == FreeSlots(s) - {e}
  {
  }

  // ----- growing

  const MAXIMUM_LOAD := 0.85

  /** `count / size >= 0.85`. The quotient is exact in a double, as size is a power
      of two, and no such quotient lies between 0.85 and its nearest double. */
  predicate LoadReached(count: nat, size: nat) {
    20 * count >= 17 * size
  }

  lemma LoadIs(count: nat, size: nat)
    requires size > 0
    ensures LoadReached(count, size) <==> count as real / size as real >= MAXIMUM_LOAD
  {
    var c, n := count as real, size as real;
    assert c / n >= 0.85 <==> c >= 0.85 * n by {
      assert c == (c / n) * n;
    }
  }

  /** For the sizes that a table has, the home of a key is the remainder of its hash. */
  lemma HomeIsRemainder(hash: Key -> nat, n: nat, key: Key)
    requires IsPow2(n)
    ensures n > 0 && Home(hash, n, key) == hash(key) % n
  {
    var k: nat :| n == Pow2(k);
    MaskIsRemainder(hash(key), k);
  }

  /** The table grows to the smallest power of two that is large enough. */
  lemma SamePower(n: nat, m: nat)
    requires IsPow2(n) && IsPow2(m) && n <= m < 2 * n
    ensures n == m
  {
    var i: nat :| n == Pow2(i);
    var j: nat :| m == Pow2(j);
    if n < m {
      NextPower(i, j);
    }
  }

  lemma DoublePower(n: nat)
    requires IsPow2(n)
    ensures IsPow2(2 * n)
  {
    var k: nat :| n == Pow2(k);
    assert 2 * n == Pow2(k + 1);
  }

  /** The pairs in the slots below a bound. */
  ghost function MovedSoFar<V>(s: seq<Slot<V>>, ix: Index, done: nat): map<Key, V>
    requires Keyed(s, ix)
  {
    map k | k in ix.slotOf && ix.slotOf[k] < done :: s[ix.slotOf[k]].data
  }

  lemma MoveOne<V>(hash: Key -> nat, s: seq<Slot<V>>, ix: Index, done: nat, b: nat)
    requires Consistent(hash, s, ix)
    requires done <= b < |s| && s[b].key != "" && forall i | done <= i < b :: s[i].key == ""
    ensures MovedSoFar(s, ix, b + 1) == MovedSoFar(s, ix, done)[s[b].key := s[b].data]
  {
    SlotOfKey(hash, s, ix, b);
  }

  lemma SameCount(m: map<Key, nat>, m': map<Key, nat>)
    requires m.Keys == m'.Keys
    ensures |m| == |m'|
  {
    assert |m| == |m.Keys| && |m'| == |m'.Keys|;
  }

  /** The pairs moved so far leave room in the new table. */
  lemma FewerKeys<V>(moved: map<Key, nat>, m: map<Key, V>, s: seq<Slot<V>>, ix: Index, done: nat)
    requires Keyed(s, ix) && moved.Keys == m.Keys && m == MovedSoFar(s, ix, done)
    ensures |moved| <= |ix.slotOf|
    ensures forall k | k in ix.slotOf && ix.slotOf[k] >= done :: k !in moved
  {
    CardinalityGrows(moved.Keys, ix.slotOf.Keys);
    assert |moved| == |moved.Keys| && |ix.slotOf| == |ix.slotOf.Keys|;
  }

  lemma AllMoved<V>(hash: Key -> nat, s: seq<Slot<V>>, ix: Index, done: nat)
    requires Consistent(hash, s, ix)
    requires forall i | done <= i < |s| :: s[i].key == ""
    ensures MovedSoFar(s, ix, done) == Contents(s, ix)
  {
  }

  // ----- the table

  /** The search for a key is at position j of the chain that starts at h, or at a free home
      bucket; the key is not behind it. */
  ghost predicate OnWay<V>(hash: Key -> nat, s: seq<Slot<V>>, ix: Index, key: Key, cur: nat, h: nat, j: nat) {
    && Consistent(hash, s, ix)
    && cur < |s| && h < |s|
    && (s[cur].key != "" ==> j < |ix.chains[h]| && ix.chains[h][j] == cur)
    && (key in ix.slotOf ==>
          && ix.slotOf[key] < |s| && s[cur].key != ""
          && h == Home(hash, |s|, key) && j <= ix.place[ix.slotOf[key]])
  }

  ghost function WayLeft<V>(s: seq<Slot<V>>, ix: Index, cur: nat, h: nat, j: nat): int
    requires cur < |s| && h < |ix.chains|
  {
    if s[cur].key != "" then |ix.chains[h]| - j else 0
  }

  lemma WayStarts<V>(hash: Key -> nat, s: seq<Slot<V>>, ix: Index, key: Key, cur: nat)
    requires Consistent(hash, s, ix) && |s| > 0 && cur == Home(hash, |s|, key)
    ensures OnWay(hash, s, ix, key, cur, Home(hash, |s|, s[cur].key), ix.place[cur])
  {
    assert SlotOk(hash, s, ix, cur);
    if key in ix.slotOf {
      StartOfChain(hash, s, ix, key);
    }
  }

  lemma WayGoesOn<V>(hash: Key -> nat, s: seq<Slot<V>>, ix: Index, key: Key, cur: nat, h: nat, j: nat)
    requires OnWay(hash, s, ix, key, cur, h, j)
    ensures cur < |s| && h < |s| == |ix.chains|
    ensures s[cur].key != "" && s[cur].key == key ==> key in ix.slotOf && ix.slotOf[key] == cur
    ensures s[cur].key == "" || s[cur].key != key ==>
              if s[cur].next == NO_BUCKET then key !in ix.slotOf
              else
                && OnWay(hash, s, ix, key, s[cur].next, h, j + 1)
                && 0 <= WayLeft(s, ix, s[cur].next, h, j + 1) < WayLeft(s, ix, cur, h, j)
  {
    assert SlotOk(hash, s, ix, cur);
    ChainFacts(hash, s, ix, h);
    assert s[cur].key != "" ==> OnChain(hash, s, ix, h, j);
    if key in ix.slotOf {
      StartOfChain(hash, s, ix, key);
    }
  }

  class HashTable<V(0)> {
    const hash: Key -> nat

    var entries: array<Slot<V>>
    var mask: nat
    var size: nat
    var count: nat
    var bitmap: array<Word>
    var bitmapUpper: nat

    ghost var index: Index

    ghost predicate Shaped()
      reads this, entries, bitmap
    {
      && 0 < size <= MAX_SIZE && IsPow2(size)
      && mask == size - 1
      && entries.Length == size
      && bitmap.Length == size / 32 + 1
      && bitmapUpper < bitmap.Length
      && ZeroAbove(bitmap[..], bitmapUpper)
      && (entries as object) != bitmap
    }

    ghost predicate Valid()
      reads this, entries, bitmap
    {
      && Shaped()
      && Consistent(hash, entries[..], index)
      && BitmapAgrees(bitmap[..], FreeSlots(entries[..]))
      && count == |index.slotOf| <= size
    }

    /** The key/value map that the table stands for. */
    ghost function Map(): map<Key, V>
      reads this, entries, bitmap
      requires Valid()
    {
      Contents(entries[..], index)
    }

    /** An insertion of a new key may begin; `bucket` is the key's home. */
    ghost predicate Ready(key: Key, bucket: nat)
      reads this, entries, bitmap
    {
      && Shaped()
      && Consistent(hash, entries[..], index)
      && BitmapAgrees(bitmap[..], FreeSlots(entries[..]))
      && |index.slotOf| < size
      && key != "" && key !in index.slotOf
      && bucket < size && bucket == Home(hash, size, key)
    }

    /** Entry r is reserved: once it holds the key and the value, the table is the
        old one with that pair inserted, and bitmap and entries agree. */
    ghost predicate Reserved(s: seq<Slot<V>>, ix: Index, key: Key, v: V, r: nat)
      reads this, entries, bitmap
    {
      && r < entries.Length && |s| == entries.Length
      && Consistent(hash, s, ix)
      && Inserted(hash, s, ix, entries[..][r := Slot(key, NO_BUCKET, v)], index, key, v)
      && BitmapAgrees(bitmap[..], FreeSlots(entries[..][r := Slot(key, NO_BUCKET, v)]))
    }

    lemma MapKeys()
      requires Valid()
      ensures Map().Keys == index.slotOf.Keys
    {
    }

    constructor (hash: Key -> nat, len: nat)
      requires len <= MAX_SIZE
      ensures Valid() && fresh(entries) && fresh(bitmap)
      ensures this.hash == hash && len <= size && (if len == 0 then size == 1 else size < 2 * len)
      ensures Map() == map[] && count == 0
    {
      var n, i := 1, 1;
      while n < len
        invariant i >= 1 && n == Pow2(i - 1)
        invariant n == 1 || n < 2 * len
        invariant n <= MAX_SIZE
        decreases len - n
      {
        MaxSizeIsPow2();
        NextPower(i - 1, 30);
        n := Pow2(i);
        i := i + 1;
      }

      this.hash := hash;
      size, mask, count := n, n - 1, 0;
      var slots := new Slot<V>[n];
      entries := slots;
      var words := new Word[n / 32 + 1](_ => ZERO);
      bitmap := words;
      bitmapUpper := words.Length - 1;
      index := EmptyIndex(n);
      new;
      BlankEntries(slots);
      FillBitmap(words, n);
      EmptyTable(hash, slots[..]);
    }

    static method BlankEntries(slots: array<Slot<V>>)
      modifies slots
      ensures forall k | 0 <= k < slots.Length :: slots[k].key == "" && slots[k].next == NO_BUCKET
    {
      for b := 0 to slots.Length
        invariant forall k | 0 <= k < b :: slots[k].key == "" && slots[k].next == NO_BUCKET
      {
        slots[b] := slots[b].(key := "", next := NO_BUCKET);
      }
    }

    /** Marks the first n buckets as available and disables all other bits. */
    static method FillBitmap(words: array<Word>, n: nat)
      requires words.Length == n / 32 + 1
      modifies words
      ensures forall u, j | 0 <= u < words.Length && 0 <= j < 32 :: words[u][j] <==> 32 * u + j < n
    {
      var w := 0;
      while w < words.Length
        invariant 0 <= w
        invariant forall u, j | 0 <= u < w && u < words.Length && 0 <= j < 32 :: words[u][j] <==> 32 * u + j < n
      {
        words[w] := ALL_ONES;
        var upper := 32 * w + 31;
        if upper >= n {
          // Disable the bits that stand for no entry.
          var disable := upper - n + 1;
          for d := 0 to disable
            invariant forall j | 0 <= j < 32 :: words[w][j] <==> j < 32 - d
            invariant forall u, j | 0 <= u < w && 0 <= j < 32 :: words[u][j] <==> 32 * u + j < n
          {
            words[w] := ClearBit(words[w], 31 - d);
          }
          // There is no later word, so nothing is left to zero.
          assert w + 1 == words.Length;
        }
        w := w + 1;
      }
    }

    /** The bucket of the entry that holds a key, or None for the null pointer. */
    method Lookup(key: Key) returns (r: Option<nat>)
      requires Valid()
      ensures r == if key in index.slotOf then Some(index.slotOf[key]) else None
      ensures r.Some? <==> key in Map()
      ensures r.Some? ==> r.value < size && entries[r.value].key == key && entries[r.value].data == Map()[key]
    {
      ghost var s := entries[..];
      var cur: nat := And(hash(key), mask);
      ghost var h: nat, j: nat := Home(hash, size, s[cur].key), index.place[cur];
      WayStarts(hash, s, index, key, cur);
      while true
        invariant OnWay(hash, s, index, key, cur, h, j)
        decreases WayLeft(s, index, cur, h, j)
      {
        hide OnWay, Consistent, BitmapAgrees, WayLeft;
        WayGoesOn(hash, s, index, key, cur, h, j);
        var entry := entries[cur];
        assert entry == s[cur];
        if entry.key != "" && entry.key == key {
          return Some(cur);
        } else if entry.next == NO_BUCKET {
          break;
        }
        cur, j := entry.next, j + 1;
      }
      r := None;
    }

    /** Takes some bucket out of the free ones; the search begins at the word of `cur`. */
    method AllocBucket(cur: nat) returns (r: Option<nat>)
      requires Shaped() && BitmapAgrees(bitmap[..], FreeSlots(entries[..]))
      requires cur < size
      modifies this`bitmapUpper, bitmap
      ensures Shaped()
      ensures r.None? <==> FreeSlots(entries[..]) == {}
      ensures r.Some? ==> r.value in FreeSlots(entries[..])
      ensures BitmapAgrees(bitmap[..], FreeSlots(entries[..]) - (if r.Some? then {r.value} else {}))
    {
      ghost var words, free := bitmap[..], FreeSlots(entries[..]);
      var ofs := cur / 32;

      var i := ofs;
      while i <= bitmapUpper
        invariant ofs <= i
        invariant forall w | ofs <= w < i && w < bitmap.Length :: !NonZero(bitmap[w])
      {
        if NonZero(bitmap[i]) {
          r := TakeBit(i);
          return;
        }
        i := i + 1;
      }

      // Limit the upper range; `ofs - 1` is a size_t and wraps around for 0.
      var below := if ofs == 0 then 0xFFFF_FFFF_FFFF_FFFF else ofs - 1;
      if bitmapUpper > below {
        bitmapUpper := below;
      }

      var k: int := ofs - 1;
      while k >= 0
        invariant -1 <= k < ofs
        invariant forall w | k < w < bitmap.Length :: !NonZero(bitmap[w])
      {
        if NonZero(bitmap[k]) {
          r := TakeBit(k);
          return;
        }
        k := k - 1;
      }

      NothingFree(bitmap[..], entries[..]);
      r := None;
    }

    /** The first free slot of a bitmap word, now marked as occupied. */
    method TakeBit(w: nat) returns (r: Option<nat>)
      requires Shaped() && BitmapAgrees(bitmap[..], FreeSlots(entries[..]))
      requires w < bitmap.Length && NonZero(bitmap[w])
      modifies bitmap
      ensures Shaped()
      ensures r.Some? && r.value in FreeSlots(entries[..])
      ensures BitmapAgrees(bitmap[..], FreeSlots(entries[..]) - {r.value})
    {
      ghost var words := bitmap[..];
      var j := Clz(bitmap[w]);
      assert words[w][j];
      BitmapTake(words, FreeSlots(entries[..]), w, j);
      bitmap[w] := ClearBit(bitmap[w], j);
      assert bitmap[..] == words[w := ClearBit(words[w], j)];
      r := Some(w * 32 + j);
    }

    /** Finds the entry for a new key, moving a foreign occupant of the key's home
        away. The table is consistent again once the caller has stored the key. */
    method AllocateEntry(key: Key, ghost v: V) returns (r: nat)
      requires Valid() && key != "" && key !in index.slotOf && count < size
      modifies this`count, this`bitmapUpper, this`index, entries, bitmap
      ensures Shaped() && Reserved(old(entries[..]), old(index), key, v, r)
      ensures count == old(count) + 1 == |index.slotOf|
      ensures HomeKept(hash, size, old(index), index)
    {
      hide HomeKept;
      var known := Lookup(key);
      assert known == None;

      count := count + 1;
      var bucket := And(hash(key), mask);

      if entries[bucket].key == "" {
        TakeHome(bucket, key, v);
        return bucket;
      }

      // The home bucket is taken: by a key at home, or by a foreign one.
      var realBucket := And(hash(entries[bucket].key), mask);
      if bucket == realBucket {
        r := ExtendChain(bucket, key, v);
      } else {
        Evict(bucket, realBucket, key, v);
        r := bucket;
      }
    }

    /** Case 1: the home bucket is free; mark it as occupied. */
    method TakeHome(bucket: nat, key: Key, ghost v: V)
      requires Ready(key, bucket) && entries[bucket].key == ""
      modifies this`index, bitmap
      ensures Shaped() && Reserved(old(entries[..]), old(index), key, v, bucket)
      ensures HomeKept(hash, size, old(index), index)
    {
      hide HomeKept;
      ghost var s, words := entries[..], bitmap[..];
      BitmapTake(words, FreeSlots(s), bucket / 32, bucket % 32);
      bitmap[bucket / 32] := ClearBit(bitmap[bucket / 32], bucket % 32);
      assert bitmap[..] == words[bucket / 32 := ClearBit(words[bucket / 32], bucket % 32)];
      FreshBucket(hash, s, index, bucket, key, v);
      FreshKeepsHome(hash, size, index, bucket, key);
      index := FreshIndex(index, bucket, key);
      FillFree(s, s[bucket := Slot(key, NO_BUCKET, v)], bucket);
    }

    /** Case 2: the occupant is at home; append a free bucket to its chain. */
    method ExtendChain(bucket: nat, key: Key, ghost v: V) returns (r: nat)
      requires Ready(key, bucket) && entries[bucket].key != "" && bucket == Home(hash, size, entries[bucket].key)
      modifies this`bitmapUpper, this`index, entries, bitmap
      ensures Shaped() && Reserved(old(entries[..]), old(index), key, v, r)
      ensures HomeKept(hash, size, old(index), index)
    {
      hide HomeKept, BitmapAgrees, ZeroAbove, IsPow2, Inserted;
      ghost var s, ix := entries[..], index;
      SomeSlotFree(hash, s, ix);
      var empty := AllocBucket(bucket);
      assert empty != None;
      r := empty.value;
      FollowAndAppend(bucket, r);
      AppendBucket(hash, s, ix, bucket, r, key, v);
      AppendKeepsHome(hash, size, ix, bucket, r, key);
      index := AppendIndex(ix, bucket, r, key);
      ghost var s' := AppendSlots(s, Last(hash, s, ix, bucket), r, key, v);
      assert entries[..][r := Slot(key, NO_BUCKET, v)] == s';
      FillFree(s, s', r);
    }

    /** Case 3: the occupant is foreign; move it to a free bucket. */
    method Evict(bucket: nat, realBucket: nat, key: Key, ghost v: V)
      requires Ready(key, bucket) && entries[bucket].key != ""
      requires bucket != realBucket && realBucket == Home(hash, size, entries[bucket].key)
      modifies this`bitmapUpper, this`index, entries, bitmap
      ensures Shaped() && Reserved(old(entries[..]), old(index), key, v, bucket)
      ensures HomeKept(hash, size, old(index), index)
    {
      hide HomeKept, BitmapAgrees, ZeroAbove, IsPow2, Inserted;
      ghost var s, ix := entries[..], index;
      SomeSlotFree(hash, s, ix);
      var idxNew := AllocBucket(bucket);
      assert idxNew != None;
      ghost var e := idxNew.value;
      MoveAway(bucket, realBucket, idxNew.value);
      EvictBucket(hash, s, ix, bucket, e, key, v);
      EvictKeepsHome(hash, s, ix, bucket, e, key);
      index := EvictIndexAt(hash, s, ix, bucket, e, key);
      ghost var s' := EvictSlotsAt(hash, s, ix, bucket, e, key, v);
      assert entries[..][bucket := Slot(key, NO_BUCKET, v)] == s';
      FillFree(s, s', e);
    }

    /** Follows the chain that starts at a bucket and appends a slot to it. */
    method FollowAndAppend(bucket: nat, empty: nat)
      requires Shaped() && Consistent(hash, entries[..], index)
      requires bucket < size && entries[bucket].key != "" && bucket == Home(hash, size, entries[bucket].key)
      requires empty < size
      modifies entries
      ensures var s, last := old(entries[..]), old(Last(hash, entries[..], index, bucket));
              entries[..] == s[last := s[last].(next := empty)]
    {
      ghost var s := entries[..];
      ghost var chain := index.chains[bucket];
      ghost var j := 0;
      ghost var last := Last(hash, s, index, bucket);
      HomeOccupied(hash, s, index, bucket);
      var entry := bucket;
      while true
        invariant entries[..] == s
        invariant j < |chain| && chain[j] == entry && entry < size
        decreases |chain| - j
      {
        assert OnChain(hash, s, index, bucket, j);
        ChainFacts(hash, s, index, bucket);
        if entries[entry].next == NO_BUCKET {
          entries[entry] := entries[entry].(next := empty);
          return;
        }
        entry, j := entries[entry].next, j + 1;
      }
    }

    /** Copies a foreign occupant to a free slot and patches its predecessor. */
    method MoveAway(bucket: nat, realBucket: nat, idxNew: nat)
      requires Shaped() && Consistent(hash, entries[..], index)
      requires bucket < size && entries[bucket].key != "" && realBucket == Home(hash, size, entries[bucket].key)
      requires bucket != realBucket
      requires idxNew < size && entries[idxNew].key == ""
      modifies entries
      ensures var s, prev := old(entries[..]), old(Predecessor(hash, entries[..], index, bucket));
              entries[..] == s[idxNew := s[bucket]][prev := s[prev].(next := idxNew)]
    {
      ghost var s := entries[..];
      ghost var chain := index.chains[realBucket];
      ghost var p := index.place[bucket];
      ghost var prev := Predecessor(hash, s, index, bucket);
      HomeOccupied(hash, s, index, realBucket);
      assert SlotOk(hash, s, index, bucket);
      entries[idxNew] := entries[bucket];

      var evictee := realBucket;
      ghost var j := 0;
      while true
        invariant entries[..] == s[idxNew := s[bucket]]
        invariant j < p && chain[j] == evictee && evictee < size
        decreases p - j
      {
        assert OnChain(hash, s, index, realBucket, j);
        assert OnChain(hash, s, index, realBucket, j + 1);
        assert entries[evictee].key != "";
        assert entries[evictee].next != NO_BUCKET;
        if entries[evictee].next == bucket {
          entries[evictee] := entries[evictee].(next := idxNew);
          return;
        }
        evictee, j := entries[evictee].next, j + 1;
      }
    }

    /** The first occupied entry after `cur`, in array order; -1 stands for the
        position before the first entry. */
    method GetNext(cur: int) returns (r: Option<nat>)
      requires entries.Length == size && -1 <= cur < size
      ensures match r
              case Some(b) => cur < b < size && entries[b].key != ""
                              && forall i | cur < i < b :: entries[i].key == ""
              case None => forall i | cur < i < size :: entries[i].key == ""
    {
      var i := cur;
      while true
        invariant cur <= i < size
        invariant forall k | cur < k <= i :: entries[k].key == ""
        decreases size - i
      {
        i := i + 1;
        if i >= size {
          return None;
        } else if entries[i].key != "" {
          return Some(i);
        }
      }
    }

    method GetFirst() returns (r: Option<nat>)
      requires entries.Length == size
      ensures match r
              case Some(b) => b < size && entries[b].key != "" && forall i | 0 <= i < b :: entries[i].key == ""
              case None => forall i | 0 <= i < size :: entries[i].key == ""
    {
      r := GetNext(-1);
    }

    /** The walk of a rehash from the slots s has passed slot `done`; the rest of the array
        is untouched. */
    ghost predicate Unmoved(s: seq<Slot<V>>, ix: Index, done: nat)
      reads this, entries
    {
      && entries.Length == size == |s|
      && Consistent(hash, s, ix) && |ix.slotOf| <= size
      && (forall i | done <= i < size :: entries[i] == s[i])
    }

    /** The new table stands for what the walk has met. */
    ghost predicate Moved(table: HashTable<V>, s: seq<Slot<V>>, ix: Index, done: nat)
      reads this, table, table.entries, table.bitmap
    {
      && table != this && entries != table.entries && bitmap != table.bitmap
      && table.Valid() && size < table.size
      && Keyed(s, ix) && table.Map() == MovedSoFar(s, ix, done)
    }

    ghost predicate Moving(table: HashTable<V>, s: seq<Slot<V>>, ix: Index, done: nat)
      reads this, entries, table, table.entries, table.bitmap
    {
      Unmoved(s, ix, done) && Moved(table, s, ix, done)
    }

    /** Moves every entry to an empty, larger table, blanking the keys it has
        moved as it walks. */
    method MoveAll(table: HashTable<V>)
      requires Valid() && table.Valid() && table.Map() == map[]
      requires table != this && entries != table.entries && bitmap != table.bitmap
      requires size < table.size
      modifies entries, table`count, table`bitmapUpper, table`index, table.entries, table.bitmap
      ensures table.Valid() && table.Map() == old(Map()) && table.count == count
    {
      hide *;
      ghost var s, ix := entries[..], index;
      ghost var done := 0;
      StartMoving(table);
      var cur := GetFirst();
      while cur != None
        invariant Moving(table, s, ix, done) && entries.Length == size
        invariant match cur
                  case Some(b) => done <= b < size && entries[b].key != ""
                    && forall i | done <= i < b :: entries[i].key == ""
                  case None => forall i | done <= i < size :: entries[i].key == ""
        decreases size - done, cur.Some?
      {
        var b := cur.value;
        MoveEntry(table, s, ix, done, b);
        done := b + 1;
        cur := GetNext(b);
      }
      FinishMoving(table, s, ix, done);
    }

    lemma StartMoving(table: HashTable<V>)
      requires Valid() && table.Valid() && table.Map() == map[]
      requires table != this && entries != table.entries && bitmap != table.bitmap
      requires size < table.size
      ensures Moving(table, entries[..], index, 0)
      ensures entries.Length == size && count == |index.slotOf| && Map() == Contents(entries[..], index)
    {
    }

    lemma FinishMoving(table: HashTable<V>, s: seq<Slot<V>>, ix: Index, done: nat)
      requires Moving(table, s, ix, done) && forall i | done <= i < size :: entries[i].key == ""
      ensures table.Valid() && table.Map() == Contents(s, ix) && table.count == |ix.slotOf|
    {
      AllMoved(hash, s, ix, done);
      assert table.Map().Keys == table.index.slotOf.Keys && Contents(s, ix).Keys == ix.slotOf.Keys;
      SameCount(table.index.slotOf, ix.slotOf);
    }

    /** One step of the walk: the entry at b goes to the table and its key is blanked. */
    method MoveEntry(table: HashTable<V>, ghost s: seq<Slot<V>>, ghost ix: Index, ghost done: nat, b: nat)
      requires Moving(table, s, ix, done)
      requires done <= b < entries.Length == size && entries[b].key != ""
               && forall i | done <= i < b :: entries[i].key == ""
      modifies entries, table`count, table`bitmapUpper, table`index, table.entries, table.bitmap
      ensures Moving(table, s, ix, b + 1)
    {
      hide Unmoved, Moved;
      Hand(table, s, ix, done, b);
      BlankKey(s, ix, done, b);
    }

    method Hand(table: HashTable<V>, ghost s: seq<Slot<V>>, ghost ix: Index, ghost done: nat, b: nat)
      requires Unmoved(s, ix, done) && Moved(table, s, ix, done)
      requires done <= b < entries.Length == size && entries[b].key != ""
               && forall i | done <= i < b :: entries[i].key == ""
      modifies table`count, table`bitmapUpper, table`index, table.entries, table.bitmap
      ensures Unmoved(s, ix, done) && Moved(table, s, ix, b + 1)
      ensures table != this && entries != table.entries
    {
      Moveable(table, s, ix, done, b);
      hide Inserted, Consistent, BitmapAgrees, MovedSoFar, Keyed, Valid, Map, HomeKept, Unmoved;
      var _ := table.AddNew(entries[b].key, entries[b].data);
    }

    method BlankKey(ghost s: seq<Slot<V>>, ghost ix: Index, ghost done: nat, b: nat)
      requires Unmoved(s, ix, done) && done <= b < entries.Length
      modifies entries
      ensures Unmoved(s, ix, b + 1)
    {
      hide Consistent;
      entries[b] := entries[b].(key := "");
    }

    lemma Moveable(table: HashTable<V>, s: seq<Slot<V>>, ix: Index, done: nat, b: nat)
      requires Unmoved(s, ix, done) && Moved(table, s, ix, done)
      requires done <= b < entries.Length == size && entries[b].key != ""
               && forall i | done <= i < b :: entries[i].key == ""
      ensures b < entries.Length && entries[b] == s[b] && s[b].key != ""
      ensures table.Valid() && table.count < table.size && s[b].key !in table.index.slotOf
      ensures Keyed(s, ix) && MovedSoFar(s, ix, b + 1) == table.Map()[s[b].key := s[b].data]
    {
      SlotOfKey(hash, s, ix, b);
      table.MapKeys();
      FewerKeys(table.index.slotOf, table.Map(), s, ix, done);
      MoveOne(hash, s, ix, done, b);
    }

    /** What both uses of `allocateEntry` do: reserve an entry and fill it in. */
    method AddNew(key: Key, value: V) returns (r: nat)
      requires Valid() && key != "" && key !in index.slotOf && count < size
      modifies this`count, this`bitmapUpper, this`index, entries, bitmap
      ensures Valid() && Map() == old(Map())[key := value]
      ensures Inserted(hash, old(entries[..]), old(index), entries[..], index, key, value)
      ensures key in index.slotOf && index.slotOf[key] == r
      ensures count == old(count) + 1
      ensures HomeKept(hash, size, old(index), index)
    {
      hide Inserted, Consistent, BitmapAgrees, ZeroAbove, FreeSlots, Contents, HomeKept;
      ghost var s, ix := entries[..], index;
      r := AllocateEntry(key, value);
      ghost var reserved := entries[..];
      Fill(r, key, value);
      assert entries[..][r := Slot(key, NO_BUCKET, value)] == reserved[r := Slot(key, NO_BUCKET, value)];
      Stored(s, ix, key, value, r);
    }

    method Fill(r: nat, key: Key, v: V)
      requires r < entries.Length
      modifies entries
      ensures entries[..] == old(entries[..])[r := Slot(key, NO_BUCKET, v)]
    {
      entries[r] := entries[r].(key := key);
      entries[r] := entries[r].(next := NO_BUCKET);
      entries[r] := entries[r].(data := v);
    }

    /** A reserved entry that has been written makes the table valid again. */
    lemma Stored(s: seq<Slot<V>>, ix: Index, key: Key, v: V, r: nat)
      requires Shaped() && Reserved(s, ix, key, v, r) && count == |index.slotOf| <= size
      requires key != "" && entries[r] == Slot(key, NO_BUCKET, v)
      ensures Valid() && Map() == Contents(s, ix)[key := v]
      ensures Inserted(hash, s, ix, entries[..], index, key, v)
      ensures key in index.slotOf && index.slotOf[key] == r
    {
      var s' := entries[..][r := Slot(key, NO_BUCKET, v)];
      assert s' == entries[..];
      SlotOfKey(hash, s', index, r);
    }

    /** Stores a new pair. When the load limit is reached, everything first moves to
        a table of twice the size. */
    method Insert(key: Key, value: V)
      requires Valid() && key != "" && key !in Map()
      requires LoadReached(count, size) ==> 2 * size <= MAX_SIZE
      modifies this, entries, bitmap
      ensures Valid() && Map() == old(Map())[key := value]
      ensures count == old(count) + 1
      ensures size == (if LoadReached(old(count), old(size)) then 2 * old(size) else old(size))
      ensures (entries == old(entries) && bitmap == old(bitmap)) || (fresh(entries) && fresh(bitmap))
      ensures size == old(size) ==>
                && Inserted(hash, old(entries[..]), old(index), entries[..], index, key, value)
                && HomeKept(hash, size, old(index), index)
    {
      hide HomeKept;
      if LoadReached(count, size) {
        var table := new HashTable<V>(hash, size * 2);
        DoublePower(size);
        SamePower(size * 2, table.size);
        MoveAll(table);
        Assign(table);
      }
      var r := AddNew(key, value);

      var found := Lookup(key);
      assert found == Some(r);
    }

    /** `*this = table`. */
    method Assign(table: HashTable<V>)
      requires table.Valid() && table.hash == hash
      modifies this
      ensures Valid() && Map() == table.Map()
      ensures entries == table.entries && bitmap == table.bitmap
      ensures size == table.size && count == table.count && index == table.index
    {
      entries, mask, size, count := table.entries, table.mask, table.size, table.count;
      bitmap, bitmapUpper, index := table.bitmap, table.bitmapUpper, table.index;
    }

    /** Empties the table; its size stays. */
    method Clear()
      requires Valid()
      modifies this
      ensures Valid() && Map() == map[] && count == 0 && size == old(size)
      ensures fresh(entries) && fresh(bitmap)
    {
      var table := new HashTable<V>(hash, size);
      SamePower(size, table.size);
      Assign(table);
    }
  }
}
