/** A socket as the HTTP modules see it, and the string buffers they read into. */
module Connection {
  import opened Sequences

  /** What successive calls of `recv` meet: a non-empty segment of the stream, of
      which a call takes as much as it has room for; the error EAGAIN; or the end
      of the stream, which every later call meets again. */
  datatype Event = Data(bytes: string) | Again | Closed

  type Script = s: seq<Event> | forall e | e in s :: e.Data? ==> e.bytes != "" witness []

  /** The bytes that are still to come. */
  ghost function Pending(script: Script): string {
    if script == [] || script[0].Closed? then ""
    else if script[0].Again? then Pending(script[1..])
    else script[0].bytes + Pending(script[1..])
  }

  ghost predicate EverOpen(script: Script) {
    forall e | e in script :: !e.Closed?
  }

  /** The bytes that come before the first call that yields none. */
  ghost function Straight(script: Script): string {
    if script == [] || !script[0].Data? then "" else script[0].bytes + Straight(script[1..])
  }

  /** The first call that yields no bytes meets the end of the stream. */
  ghost predicate Ends(script: Script) {
    script != [] && (script[0].Closed? || (script[0].Data? && Ends(script[1..])))
  }

  /** No call before the last byte is in vain. */
  ghost predicate Blocking(script: Script) {
    Straight(script) == Pending(script)
  }

  /** A bound on the number of calls that find something. */
  ghost function Size(script: Script): nat {
    if script == [] then 0
    else (match script[0] case Data(bytes) => |bytes| case _ => 0) + 1 + Size(script[1..])
  }

  /** What a script leaves once n bytes of its first segment are taken. */
  function Taken(script: Script, n: nat): (later: Script)
    requires script != [] && script[0].Data? && n <= |script[0].bytes|
  {
    if n == |script[0].bytes| then script[1..] else [Data(script[0].bytes[n..])] + script[1..]
  }

  lemma AtData(bytes: string, rest: Script)
    requires bytes != ""
    ensures var script: Script := [Data(bytes)] + rest;
            && Straight(script) == bytes + Straight(rest) && Pending(script) == bytes + Pending(rest)
            && Ends(script) == Ends(rest) && EverOpen(script) == EverOpen(rest)
            && Size(script) == |bytes| + 1 + Size(rest)
  {
    assert ([Data(bytes)] + rest)[1..] == rest;
  }

  lemma TakenBytes(script: Script, n: nat)
    requires script != [] && script[0].Data? && 0 < n <= |script[0].bytes|
    ensures var later, got := Taken(script, n), script[0].bytes[..n];
            && Straight(script) == got + Straight(later) && Pending(script) == got + Pending(later)
            && Ends(script) == Ends(later) && EverOpen(script) == EverOpen(later)
            && Size(later) + n <= Size(script)
  {
    hide Straight, Pending, Ends, EverOpen, Size;
    var bytes, rest := script[0].bytes, script[1..];
    assert script == [Data(bytes)] + rest;
    if n < |bytes| {
      CutData(bytes, rest, n);
    } else {
      AtData(bytes, rest);
      assert bytes[..n] == bytes;
    }
  }

  lemma CutData(bytes: string, rest: Script, n: nat)
    requires 0 < n < |bytes|
    ensures var script: Script, later: Script := [Data(bytes)] + rest, [Data(bytes[n..])] + rest;
            && Straight(script) == bytes[..n] + Straight(later) && Pending(script) == bytes[..n] + Pending(later)
            && Ends(script) == Ends(later) && EverOpen(script) == EverOpen(later)
            && Size(later) + n <= Size(script)
  {
    hide *;
    AtData(bytes, rest);
    AtData(bytes[n..], rest);
    CutFront(bytes, n, Straight(rest));
    CutFront(bytes, n, Pending(rest));
  }

  lemma GotBehind(text: string, got: string)
    ensures (text + got)[|text|..] == got
  {
  }

  lemma CutFront(bytes: string, n: nat, more: string)
    requires n <= |bytes|
    ensures bytes + more == bytes[..n] + (bytes[n..] + more)
  {
  }

  /** What a call meets that yields no bytes. */
  lemma AtNoData(script: Script)
    ensures script == [] ==> Straight(script) == Pending(script) == "" && !Ends(script)
    ensures script != [] && script[0].Closed? ==>
              Straight(script) == Pending(script) == "" && Ends(script) && !EverOpen(script)
    ensures script != [] && script[0].Again? ==>
              && Straight(script) == "" && !Ends(script) && Pending(script) == Pending(script[1..])
              && (Blocking(script) ==> Blocking(script[1..])) && (EverOpen(script) ==> EverOpen(script[1..]))
              && Size(script[1..]) <= Size(script)
  {
  }

  lemma BothCut(a: string, b: string, c: string)
    requires a + b == a + c
    ensures b == c
  {
    assert b == (a + b)[|a|..] && c == (a + c)[|a|..];
  }

  lemma TakenBlocking(script: Script, n: nat)
    requires script != [] && script[0].Data? && 0 < n <= |script[0].bytes| && Blocking(script)
    ensures Blocking(Taken(script, n))
  {
    TakenBytes(script, n);
    hide Straight, Pending, Taken;
    BothCut(script[0].bytes[..n], Straight(Taken(script, n)), Pending(Taken(script, n)));
  }

  class Conn {
    var script: Script
    /** All bytes that were handed out. */
    ghost var received: string

    /** Everything that the peer sends, handed out or not. */
    ghost function Stream(): string
      reads this
    {
      received + Pending(script)
    }

    constructor (script: Script)
      ensures this.script == script && received == ""
    {
      this.script, received := script, "";
    }

    /** `recv` with room for len bytes at an offset; -1 stands for EAGAIN. */
    method Read(buf: array<char>, ofs: nat, len: nat) returns (n: int)
      requires ofs + len <= buf.Length
      modifies this, buf
      ensures -1 <= n <= len
      ensures buf[..ofs] == old(buf[..ofs])
      ensures var end := ofs + (if n > 0 then n else 0); buf[end..] == old(buf[..])[end..]
      ensures var got := if n > 0 then buf[ofs..ofs + n] else "";
              && received == old(received) + got
              && old(Pending(script)) == got + Pending(script)
      ensures Stream() == old(Stream())
      ensures n == 0 && len > 0 ==> old(!EverOpen(script)) && old(Pending(script)) == ""
      ensures n == 0 ==> script == old(script) && (len > 0 ==> old(Straight(script)) == "" && Ends(script))
      ensures n == -1 ==> len > 0 && old(Straight(script)) == "" && !old(Ends(script))
      ensures n > 0 ==> old(Straight(script)) == buf[ofs..ofs + n] + Straight(script)
      ensures n > 0 ==> Ends(script) == old(Ends(script))
      ensures Size(script) + (if n > 0 then n else 0) <= old(Size(script))
      ensures old(EverOpen(script)) ==> EverOpen(script)
      ensures old(Blocking(script)) ==> Blocking(script)
    {
      hide Taken, Straight, Pending, Ends, EverOpen, Size, Blocking;
      if len == 0 {
        return 0;
      }
      AtNoData(script);
      if script == [] {
        return -1;
      }
      match script[0]
      case Closed =>
        return 0;
      case Again =>
        script := script[1..];
        return -1;
      case Data(bytes) =>
        n := if |bytes| <= len then |bytes| else len;
        TakenBytes(script, n);
        if Blocking(script) {
          TakenBlocking(script, n);
        }
        script := Taken(script, n);
        forall i | 0 <= i < n {
          buf[ofs + i] := bytes[i];
        }
        received := received + bytes[..n];
    }
  }

  /** A string that grows inside a buffer of fixed size. */
  class TextBuffer {
    const data: array<char>
    var len: nat

    ghost predicate Valid()
      reads this
    {
      len <= data.Length
    }

    function Text(): (s: string)
      reads this, data
      requires Valid()
      ensures |s| == len
    {
      data[..len]
    }

    constructor (size: nat)
      ensures Valid() && fresh(data) && data.Length == size && Text() == ""
    {
      data := new char[size];
      len := 0;
    }

    function GetFree(): (free: nat)
      reads this
      requires Valid()
      ensures len + free == data.Length
    {
      data.Length - len
    }

    /** Reads at most `max` bytes behind the text. */
    method ReadFrom(conn: Conn, max: nat) returns (n: int)
      requires Valid() && max <= GetFree()
      modifies this, data, conn
      ensures Valid() && -1 <= n <= max
      ensures len == old(len) + (if n > 0 then n else 0) && old(Text()) <= Text()
      ensures var got := Text()[old(len)..];
              && conn.received == old(conn.received) + got
              && old(Pending(conn.script)) == got + Pending(conn.script)
      ensures conn.Stream() == old(conn.Stream())
      ensures n == 0 && max > 0 ==> old(!EverOpen(conn.script)) && old(Pending(conn.script)) == ""
      ensures n == 0 ==>
                conn.script == old(conn.script) && (max > 0 ==> old(Straight(conn.script)) == "" && Ends(conn.script))
      ensures n == -1 ==> max > 0 && old(Straight(conn.script)) == "" && !old(Ends(conn.script))
      ensures n > 0 ==> old(Straight(conn.script)) == Text()[old(len)..] + Straight(conn.script)
      ensures n > 0 ==> Ends(conn.script) == old(Ends(conn.script))
      ensures Size(conn.script) + (if n > 0 then n else 0) <= old(Size(conn.script))
      ensures old(EverOpen(conn.script)) ==> EverOpen(conn.script)
      ensures old(Blocking(conn.script)) ==> Blocking(conn.script)
    {
      hide Straight, Pending, Ends, EverOpen, Blocking, Size;
      ghost var text := Text();
      n := conn.Read(data, len, max);
      if n > 0 {
        len := len + n;
        assert data[..len] == data[..len - n] + data[len - n..len];
        assert data[..len - n] == text;
        GotBehind(text, data[len - n..len]);
      }
    }

    method Clear()
      requires Valid()
      modifies this
      ensures Valid() && Text() == ""
    {
      len := 0;
    }

    /** Drops the first characters and moves the others to the front. */
    method Crop(ofs: nat)
      requires Valid() && ofs <= len
      modifies this, data
      ensures Valid() && Text() == old(Text())[ofs..]
    {
      ghost var text := Text();
      forall i | 0 <= i < len - ofs {
        data[i] := data[ofs + i];
      }
      len := len - ofs;
    }

    method Copy(s: string)
      requires Valid() && |s| <= data.Length
      modifies this, data
      ensures Valid() && Text() == s
    {
      forall i | 0 <= i < |s| {
        data[i] := s[i];
      }
      len := |s|;
    }
  }
}
