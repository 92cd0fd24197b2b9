/** The writing half of src/BufferedStream.c: a fixed-size output buffer in front of
    a downstream that accepts every write in full. */
module BufferedStream {
  import opened Sequences

  ghost function Flatten(blocks: seq<string>): string {
    if blocks == [] then "" else blocks[0] + Flatten(blocks[1..])
  }

  lemma {:induction false} FlattenAppend(a: seq<string>, b: seq<string>)
    ensures Flatten(a + b) == Flatten(a) + Flatten(b)
  {
    if a == [] {
      assert a + b == b;
    } else {
      assert (a + b)[1..] == a[1..] + b;
      FlattenAppend(a[1..], b);
    }
  }

  lemma FlattenOne(a: seq<string>, s: string)
    ensures Flatten(a + [s]) == Flatten(a) + s
  {
    FlattenAppend(a, [s]);
    assert Flatten([s]) == s + Flatten([]);
  }

  // ----- the reference: how a stream of bytes is cut into blocks

  /** The full blocks that go downstream; the last bytes stay back even when they
      would fill a block. */
  ghost function Blocks(size: nat, data: string): seq<string>
    requires size > 0
    decreases |data|
  {
    if |data| <= size then [] else [data[..size]] + Blocks(size, data[size..])
  }

  ghost function Rest(size: nat, data: string): string
    requires size > 0
    decreases |data|
  {
    if |data| <= size then data else Rest(size, data[size..])
  }

  ghost predicate AllFull(size: nat, blocks: seq<string>) {
    forall i | 0 <= i < |blocks| :: |blocks[i]| == size
  }

  lemma FullMore(size: nat, blocks: seq<string>, block: string)
    requires AllFull(size, blocks) && |block| == size
    ensures AllFull(size, blocks + [block])
  {
  }

  /** Nothing is lost, doubled or reordered; every block is full; something stays
      back as soon as there was anything. */
  lemma {:induction false} BlocksCut(size: nat, data: string)
    requires size > 0
    ensures Flatten(Blocks(size, data)) + Rest(size, data) == data
    ensures AllFull(size, Blocks(size, data))
    ensures |Rest(size, data)| <= size
    ensures data != "" ==> Rest(size, data) != ""
    decreases |data|
  {
    if |data| > size {
      BlocksCut(size, data[size..]);
      var bs := Blocks(size, data[size..]);
      assert Blocks(size, data)[1..] == bs;
      assert data == data[..size] + data[size..];
    }
  }

  /** There is no other way to cut the data with these properties. */
  lemma {:induction false} CutIsUnique(size: nat, data: string, blocks: seq<string>, rest: string)
    requires size > 0
    requires AllFull(size, blocks) && Flatten(blocks) + rest == data
    requires |rest| <= size && (data != "" ==> rest != "")
    ensures blocks == Blocks(size, data) && rest == Rest(size, data)
    decreases |blocks|
  {
    if blocks != [] {
      assert |blocks[0]| == size;
      assert data == blocks[0] + (Flatten(blocks[1..]) + rest);
      assert data[..size] == blocks[0] && data[size..] == Flatten(blocks[1..]) + rest;
      assert AllFull(size, blocks[1..]) by {
        forall i | 0 <= i < |blocks[1..]|
          ensures |blocks[1..][i]| == size
        {
          assert blocks[1..][i] == blocks[i + 1];
        }
      }
      assert |data| > size;
      CutIsUnique(size, data[size..], blocks[1..], rest);
    }
  }

  // ----- the stream

  class BufferedStream {
    const out: array<char>
    var outLen: nat
    /** Input that was read ahead and not handed out yet. */
    var input: string
    /** The writes that the downstream has received. */
    ghost var sent: seq<string>
    /** How many of them precede the last flush, and what was written since. */
    ghost var flushed: nat
    ghost var pending: string

    ghost predicate Valid()
      reads this, out
    {
      && 0 < out.Length
      && outLen <= out.Length
      && flushed <= |sent|
      && AllFull(out.Length, sent[flushed..])
      && Flatten(sent[flushed..]) + Buffered() == pending
    }

    ghost function Buffered(): string
      reads this, out
      requires outLen <= out.Length
    {
      out[..outLen]
    }

    /** All bytes that were ever written, in order. */
    ghost function Written(): string
      reads this, out
      requires Valid()
    {
      Flatten(sent) + Buffered()
    }

    /** The state in which every caller finds the stream: it is what the reference
        makes of the bytes written since the last flush. */
    ghost predicate Settled()
      reads this, out
    {
      && Valid()
      && sent[flushed..] == Blocks(out.Length, pending)
      && Buffered() == Rest(out.Length, pending)
    }

    constructor (size: nat)
      requires size > 0
      ensures Settled() && fresh(out) && out.Length == size
      ensures sent == [] && pending == "" && Written() == ""
    {
      out := new char[size];
      outLen, input := 0, "";
      sent, flushed, pending := [], 0, "";
    }

    /** Appends to the buffer what fits into it. */
    method Fill(buf: string)
      requires Valid() && outLen + |buf| <= out.Length
      modifies this`outLen, this`pending, out
      ensures Valid() && outLen == old(outLen) + |buf|
      ensures pending == old(pending) + buf && Written() == old(Written()) + buf
    {
      ghost var before := Buffered();
      forall i | 0 <= i < |buf| {
        out[outLen + i] := buf[i];
      }
      outLen := outLen + |buf|;
      pending := pending + buf;
      assert Buffered() == before + buf;
    }

    /** Sends the buffer downstream as one write. */
    method Send()
      requires Valid()
      modifies this`outLen, this`sent
      ensures outLen == 0 && sent == old(sent) + [old(Buffered())]
      ensures Flatten(sent) == old(Written())
      ensures Flatten(sent[flushed..]) == old(Flatten(sent[flushed..]) + Buffered())
    {
      FlattenOne(sent, Buffered());
      FlattenOne(sent[flushed..], Buffered());
      ghost var before := sent;
      sent := sent + [Buffered()];
      outLen := 0;
      assert sent[flushed..] == before[flushed..] + [old(Buffered())];
    }

    /** Jam-packs the buffer and sends it, which is a full block. */
    method Spill(head: string)
      requires Valid() && outLen + |head| == out.Length
      modifies this`outLen, this`sent, this`pending, out
      ensures Valid() && outLen == 0
      ensures Written() == old(Written()) + head && pending == old(pending) + head
      ensures |sent| == |old(sent)| + 1 && old(sent) <= sent && |sent[|old(sent)|]| == out.Length
    {
      hide Flatten, AllFull;
      if |head| > 0 {
        Fill(head);
      }
      assert head == "" ==> pending == old(pending) + head && Written() == old(Written()) + head;
      ghost var before, block := sent[flushed..], Buffered();
      Send();
      FullMore(out.Length, before, block);
      assert sent[flushed..] == before + [block];
      assert Buffered() == "";
    }

    /** Writes through the buffer. The recursion may get the same data again, when
        the buffer was full; it then starts with an empty one. */
    method Write(buf: string) returns (n: nat)
      requires Valid()
      modifies this`outLen, this`sent, this`pending, out
      ensures Valid() && n == |buf|
      ensures Written() == old(Written()) + buf
      ensures pending == old(pending) + buf
      ensures old(sent) <= sent && forall i | |old(sent)| <= i < |sent| :: |sent[i]| == out.Length
      ensures old(Settled()) || buf != "" ==> Settled()
      decreases |buf|, outLen
    {
      if buf == "" {
        return 0;
      }
      RoomLeft();
      hide Flatten, Valid, Settled, Written, Blocks, Rest, Buffered;
      var size := out.Length;
      var free := size - outLen;
      if size >= outLen + |buf| {
        Fill(buf);
        SettledAgain();
      } else {
        CutBehind(Written(), buf, free);
        CutBehind(pending, buf, free);
        Spill(buf[..free]);
        assert |buf| - free > 0;
        var _ := Write(buf[free..]);
      }
      n := |buf|;
    }

    lemma SettledAgain()
      requires Valid() && outLen > 0
      ensures Settled()
    {
      CutIsUnique(out.Length, pending, sent[flushed..], Buffered());
    }

    lemma RoomLeft()
      requires Valid()
      ensures outLen <= out.Length
    {
    }

    /** Empties both buffers; the read-ahead is returned. */
    method Flush() returns (unread: string)
      requires Valid()
      modifies this
      ensures Settled() && pending == "" && outLen == 0
      ensures unread == old(input) && input == ""
      ensures Flatten(sent) == Written() == old(Written())
      ensures sent == old(sent) + (if old(outLen) > 0 then [old(Buffered())] else [])
    {
      unread := input;
      input := "";
      if outLen > 0 {
        Send();
      }
      flushed, pending := |sent|, "";
    }
  }
}
