/** Reading of response bodies of src/HTTP/Client.c, from the point where the response header
    and, for a chunked body (section 3.6.1 of RFC 2616), the first size line were parsed. */
module HttpClient {
  import opened Arithmetic
  import opened Wrappers
  import opened Chars
  import opened Connection
  import opened Hex
  import opened Search
  import opened Sequences

  const CRLF := "\r\n"

  // ----- the reference: a chunked body on the wire

  /** A chunk: its size line without the line end, and its data. */
  datatype Chunk = Chunk(line: string, data: string)

  /** What is left of a body: data of the chunk in work, the chunks after it, the size
      line of the last chunk, and all that follows that line. */
  datatype Rest = Rest(data: string, chunks: seq<Chunk>, last: string, tail: string)

  /** A size line: a hexadecimal number, perhaps between blanks, without extension. */
  ghost predicate SizeLine(line: string, size: nat) {
    && '\r' !in line
    && Trim(line) != "" && IsHex(Trim(line)) && HexValue(Trim(line)) == size < WORD / 2
  }

  ghost predicate WellFormed(w: Rest) {
    && (forall c | c in w.chunks :: c.data != "" && SizeLine(c.line, |c.data|))
    && SizeLine(w.last, 0)
  }

  /** Every size line that is still to come fits a buffer, with the line ends around it. */
  ghost predicate Fits(w: Rest, max: nat) {
    |w.last| + 4 <= max && forall c | c in w.chunks :: |c.line| + 4 <= max
  }

  /** Everything behind the data of the chunk in work. */
  ghost function Following(w: Rest): string
    decreases |w.chunks|
  {
    if w.chunks == [] then CRLF + w.last + CRLF + w.tail
    else CRLF + w.chunks[0].line + CRLF + (w.chunks[0].data + Following(Next(w)))
  }

  /** The rest once the chunk in work is done. */
  ghost function Next(w: Rest): Rest {
    if w.chunks == [] then w.(data := "")
    else w.(data := w.chunks[0].data, chunks := w.chunks[1..])
  }

  ghost function AllData(chunks: seq<Chunk>): string {
    if chunks == [] then "" else chunks[0].data + AllData(chunks[1..])
  }

  /** The decoded body. */
  ghost function Decoded(w: Rest): string {
    w.data + AllData(w.chunks)
  }

  ghost function NextLine(w: Rest): string {
    if w.chunks == [] then w.last else w.chunks[0].line
  }

  ghost function NextSize(w: Rest): nat {
    if w.chunks == [] then 0 else |w.chunks[0].data|
  }

  /** What follows the next size line. */
  ghost function Behind(w: Rest): string {
    if w.chunks == [] then w.tail else w.chunks[0].data + Following(Next(w))
  }

  lemma NextFits(w: Rest, max: nat)
    ensures if |NextLine(w)| + 4 > max then !Fits(w, max) else if w.chunks == [] then Fits(w, max)
            else Fits(w, max) == Fits(Next(w), max)
  {
    if w.chunks != [] {
      assert w.chunks[0] in w.chunks && w.chunks == [w.chunks[0]] + w.chunks[1..];
    }
  }

  lemma NextOnWire(w: Rest)
    requires WellFormed(w)
    ensures Following(w) == CRLF + NextLine(w) + CRLF + Behind(w)
    ensures SizeLine(NextLine(w), NextSize(w)) && WellFormed(Next(w))
    ensures NextSize(w) == 0 ==> w.chunks == []
  {
    hide SizeLine;
    if w.chunks != [] {
      assert w.chunks[0] in w.chunks;
      assert forall c | c in w.chunks[1..] :: c in w.chunks;
    }
  }

  lemma NextDecoded(w: Rest)
    requires w.data == ""
    ensures Decoded(Next(w)) == Decoded(w)
  {
  }

  lemma CrlfSearchable()
    ensures Searchable(CRLF)
  {
    NoRecurrence(CRLF);
  }

  /** The first CRLF behind a size line is the one that ends the line. */
  lemma LineEnd(line: string, behind: string, text: string)
    requires '\r' !in line && text <= line + CRLF + behind
    ensures FindSpec(text, CRLF) == if |text| >= |line| + 2 then Some(|line|) else None
  {
    var whole := line + CRLF + behind;
    CrlfSearchable();
    ScanComplete(text, CRLF, 0, 0);
    forall p: nat | OccursAt(text, CRLF, p)
      ensures p >= |line|
    {
      if p < |line| {
        LineChar(line, behind, text, p);
        assert false;
      }
    }
    if |text| >= |line| + 2 {
      assert text[|line|] == whole[|line|] && text[|line| + 1] == whole[|line| + 1];
      assert text[|line|..|line| + 2] == CRLF;
      assert OccursAt(text, CRLF, |line|);
    }
  }

  lemma LineChar(line: string, behind: string, text: string, p: nat)
    requires text <= line + CRLF + behind && OccursAt(text, CRLF, p) && p < |line|
    ensures '\r' in line
  {
    OccurrenceAt(text, CRLF, p, 0);
    assert text[p] == (line + CRLF + behind)[p] == line[p];
  }

  /** What the retry loop sees of a chunk end and the size line behind it. */
  lemma EndView(line: string, behind: string, text: string, more: string)
    requires '\r' !in line && text + more == CRLF + line + CRLF + behind
    ensures |text| >= 2 ==> text[..2] == CRLF
    ensures |text| >= 2 ==> FindSpec(text[2..], CRLF) == if |text| >= |line| + 4 then Some(|line|) else None
    ensures |text| < |line| + 4 ==> more != ""
    ensures |text| >= |line| + 4 ==>
              text[2..][..|line|] == line && text[2..][|line| + 2..] + more == behind
  {
    var whole := CRLF + line + CRLF + behind;
    assert text == whole[..|text|] && more == whole[|text|..];
    if |text| >= 2 {
      assert whole[2..] == line + CRLF + behind;
      assert text[2..] == whole[2..][..|text| - 2];
      LineEnd(line, behind, text[2..]);
    }
  }

  datatype Exception = ConnectionError | MalformedChunk

  /** The answer of `Read`, an exception, or a loop that the source never leaves. */
  datatype Outcome = Got(more: bool) | Thrown(exception: Exception) | Hangs

  // ----- waiting for a size line

  /** No size line yet, but nothing wrong so far. */
  ghost predicate NoLine(text: string) {
    |text| < 2 || (text[..2] == CRLF && FindSpec(text[2..], CRLF) == None)
  }

  /** How the wait for a chunk end and a size line ends: `text` is what the buffer holds and
      all that comes before a call that yields nothing, `max` is the size of the buffer, and
      `ends` tells whether that call meets the end of the stream. */
  ghost function Awaited(text: string, max: nat, ends: bool): Outcome {
    if |text| >= 2 && max >= 2 && text[..2] != CRLF then Thrown(MalformedChunk)
    else if LineWithin(text, max) then Got(true)
    else if |text| >= max || ends then Hangs
    else Thrown(ConnectionError)
  }

  /** The first bytes, as many as the buffer holds, have a second line end behind the first. */
  ghost predicate LineWithin(text: string, max: nat) {
    |text| >= 2 && FindSpec(text[2..], CRLF).Some? && FindSpec(text[2..], CRLF).value + 4 <= max
  }

  /** How going on with the next chunk ends: the wait for its size line, or the line itself. */
  ghost function NextOutcome(text: string, max: nat, ends: bool): Outcome {
    var r := Awaited(text, max, ends);
    if r.Got? && |text| >= 2 && SizeAtHand(text[2..]) == None then Thrown(MalformedChunk) else r
  }

  /** What is handed out of a chunk of which n bytes are missing, to a buffer with some room. */
  ghost function ChunkPart(text: string, n: nat, room: nat): string {
    if |text| < n && |text| < room then text else if room < n then text[..room] else text[..n]
  }

  /** And the answer: at the end of the stream or before a call in vain, with a full buffer, or
      behind the chunk. */
  ghost function ChunkAnswer(text: string, n: nat, room: nat, max: nat, ends: bool): Outcome {
    if |text| < n && |text| < room then if ends then Got(false) else Thrown(ConnectionError)
    else if room < n then Got(true)
    else NextOutcome(text[n..], max, ends)
  }

  /** What the parts handed out so far mean for the end. */
  lemma ChunkNow(text: string, n: nat, room: nat, got: string, soon: string, max: nat, ends: bool)
    requires got + soon == text && |got| <= n && |got| <= room
    ensures |got| == n ==> ChunkPart(text, n, room) == got
    ensures |got| == n ==> ChunkAnswer(text, n, room, max, ends) == NextOutcome(soon, max, ends)
    ensures |got| < n && |got| == room ==>
              ChunkPart(text, n, room) == got && ChunkAnswer(text, n, room, max, ends) == Got(true)
    ensures |got| < n && |got| < room && soon == "" ==>
              && ChunkPart(text, n, room) == got
              && ChunkAnswer(text, n, room, max, ends) == if ends then Got(false) else Thrown(ConnectionError)
  {
    assert text[..|got|] == got && text[|got|..] == soon;
    hide NextOutcome;
  }

  /** A part of what comes was appended to a text. */
  lemma CutOff(start: string, got: string, soon: string, straight: string, now: string, later: string)
    requires got + straight == soon && start + got <= now && start + got + straight == now + later
    ensures var part := now[|start + got|..];
            now == start + (got + part) && got + part + later == soon
  {
    var part := now[|start + got|..];
    assert now == start + got + part;
    assert start + got + straight == start + got + (part + later);
    BothCut(start + got, straight, part + later);
  }

  lemma FrontAndRest(text: string, n: nat, more: string)
    requires n <= |text|
    ensures (text + more)[..n] == text[..n] && (text + more)[n..] == text[n..] + more
  {
  }

  lemma ChunkLater(text: string, n: nat, room: nat, max: nat, ends: bool, c: nat)
    requires c <= |text| && c <= n && c <= room
    ensures ChunkPart(text, n, room) == text[..c] + ChunkPart(text[c..], n - c, room - c)
    ensures ChunkAnswer(text, n, room, max, ends) == ChunkAnswer(text[c..], n - c, room - c, max, ends)
  {
    if |text| >= n && n <= room {
      assert text[c..][n - c..] == text[n..];
    }
    hide NextOutcome;
  }

  /** The same size is announced, however much is behind the line end. */
  lemma SameSize(text: string, more: string)
    requires FindSpec(text, CRLF).Some?
    ensures SizeAtHand(text + more) == SizeAtHand(text)
  {
    FindInMore(text, more);
    assert (text + more)[..FindSpec(text, CRLF).value] == text[..FindSpec(text, CRLF).value];
    hide FindSpec, HexRead, Trim;
  }

  /** A line end is missing, or is there and the line is no size. */
  lemma MalformedLine(line: string, behind: string, max: nat, ends: bool)
    requires '\r' !in line && |line| + 4 <= max && (Trim(line) == "" || HexRead(Trim(line)) < 0)
    ensures NextOutcome(CRLF + line + CRLF + behind, max, ends) == Thrown(MalformedChunk)
    ensures forall text: string | |text| >= 2 && text[..2] != CRLF ::
              NextOutcome(text, max, ends) == Thrown(MalformedChunk)
  {
    var text := CRLF + line + CRLF + behind;
    FitsOrHangs(line, behind, max, ends);
    assert text[2..] == line + CRLF + behind;
    LineEnd(line, behind, text[2..]);
    assert text[2..][..|line|] == line;
    hide FindSpec, HexRead, Trim;
  }

  /** If a call in vain comes before the line end, that is an error, unless the buffer is full. */
  lemma CutLineThrows(line: string, text: string, max: nat)
    requires '\r' !in line && text < CRLF + line + CRLF && |text| < max
    ensures Awaited(text, max, false) == Thrown(ConnectionError)
  {
    var more := (CRLF + line + CRLF)[|text|..];
    assert text + more == CRLF + line + CRLF + "";
    EndView(line, "", text, more);
    hide FindSpec;
  }

  lemma FindLeast(text: string)
    ensures IsLeast(text, CRLF, FindSpec(text, CRLF))
  {
    CrlfSearchable();
    ScanComplete(text, CRLF, 0, 0);
  }

  lemma OccursInMore(text: string, more: string, p: nat)
    requires p + 2 <= |text|
    ensures OccursAt(text, CRLF, p) == OccursAt(text + more, CRLF, p)
  {
    assert (text + more)[p..p + 2] == text[p..p + 2];
  }

  /** What is found stays found, and what is not is not inside the text. */
  lemma FindInMore(text: string, more: string)
    ensures FindSpec(text, CRLF).Some? ==> FindSpec(text + more, CRLF) == FindSpec(text, CRLF)
    ensures FindSpec(text, CRLF) == None && FindSpec(text + more, CRLF).Some? ==>
              FindSpec(text + more, CRLF).value + 2 > |text|
  {
    FindLeast(text);
    FindLeast(text + more);
    hide FindSpec;
    forall p: nat | p + 2 <= |text|
      ensures OccursAt(text, CRLF, p) == OccursAt(text + more, CRLF, p)
    {
      OccursInMore(text, more, p);
    }
  }

  /** What the buffer shows decides, as soon as it shows something; else a full buffer or
      what the next call meets. */
  lemma Shown(text: string, more: string, max: nat, ends: bool)
    requires |text| <= max
    ensures var r := Awaited(text + more, max, ends);
            if !NoLine(text) then r == if text[..2] == CRLF then Got(true) else Thrown(MalformedChunk)
            else (|text| == max ==> r == Hangs)
                 && (|text| < max && more == "" ==> r == if ends then Hangs else Thrown(ConnectionError))
  {
    hide FindSpec;
    if |text| >= 2 {
      assert (text + more)[..2] == text[..2] && (text + more)[2..] == text[2..] + more;
      FindInMore(text[2..], more);
    }
    if more == "" {
      assert text + more == text;
    }
  }

  /** A size line is awaited for ever exactly if it does not fit. */
  lemma FitsOrHangs(line: string, behind: string, max: nat, ends: bool)
    requires '\r' !in line
    ensures Awaited(CRLF + line + CRLF + behind, max, ends) == if |line| + 4 <= max then Got(true) else Hangs
  {
    var text := CRLF + line + CRLF + behind;
    assert text + "" == text;
    EndView(line, behind, text, "");
    hide FindSpec;
  }

  /** If the stream ends inside it, a size line is awaited for ever. */
  lemma CutLineHangs(line: string, text: string, max: nat)
    requires '\r' !in line && text < CRLF + line + CRLF
    ensures Awaited(text, max, true) == Hangs
  {
    var more := (CRLF + line + CRLF)[|text|..];
    assert text + more == CRLF + line + CRLF + "";
    EndView(line, "", text, more);
    hide FindSpec;
  }

  /** The size line "10" needs six bytes, and a whole line end. */
  lemma HangsHere()
    ensures Awaited("\r\n10\r\n", 5, false) == Hangs
    ensures Awaited("\r\n10\r", 4096, true) == Hangs
  {
    var line := "10";
    assert CRLF + line + CRLF + "" == "\r\n10\r\n" && "\r\n10\r" < CRLF + line + CRLF;
    FitsOrHangs(line, "", 5, false);
    CutLineHangs(line, "\r\n10\r", 4096);
  }

  // ----- the client

  class Client {
    const conn: Conn
    const resp: TextBuffer
    var closed: bool
    var keepAlive: bool
    const chunked: bool
    /** The length of the chunk in work, or of the whole body; -1 if that was not announced. */
    var total: int
    var read: nat
    var canRead: nat
    var inChunk: bool

    constructor (conn: Conn, resp: TextBuffer, keepAlive: bool, chunked: bool, total: int)
      requires resp.Valid() && total >= if chunked then 0 else -1
      ensures Valid() && this.conn == conn && this.resp == resp
      ensures !closed && this.keepAlive == keepAlive && this.chunked == chunked && this.total == total && read == 0
    {
      this.conn, this.resp, this.keepAlive, this.chunked, this.total := conn, resp, keepAlive, chunked, total;
      closed, read, inChunk := false, 0, chunked;
      canRead := if chunked && resp.len >= total then total else resp.len;
    }

    ghost predicate Valid()
      reads this, resp
    {
      && resp.Valid() && canRead == Readable()
      && (if chunked then inChunk && (0 <= read < total || total == 0) else total >= -1)
    }

    /** How much of the body, or of the chunk in work, is in the buffer. */
    ghost function Readable(): int
      reads this, resp
    {
      if chunked && resp.len >= total - read then total - read else resp.len
    }

    /** What is still to come. */
    ghost function Future(): string
      reads resp, resp.data, conn
      requires resp.Valid()
    {
      resp.Text() + Pending(conn.script)
    }

    /** The stream goes on with a well-formed rest of a body; the chunk in work is not
        read completely, or just now. */
    ghost predicate Tracks(w: Rest)
      reads `total, `read, resp, resp.data, conn
    {
      && chunked && resp.Valid() && Blocking(conn.script) && WellFormed(w)
      && Future() == w.data + Following(w)
      && read <= total && |w.data| == total - read
    }

    /** Likewise, between two calls of `Read`. */
    ghost predicate Follows(w: Rest)
      reads `total, `read, resp, resp.data, conn
    {
      && chunked && resp.Valid()
      && (if total > 0 then Tracks(w) && read < total
          else Blocking(conn.script) && w.data == "" && w.chunks == [] && Future() == w.tail)
    }

    /** A body that is not chunked: its text comes without interruption, and its end is told
        by its length or by the end of the stream. */
    ghost predicate Plain(text: string)
      reads `total, `read, resp, resp.data, conn
    {
      && !chunked && resp.Valid() && Blocking(conn.script) && Future() == text
      && (if total == -1 then Ends(conn.script) else |text| == total - read)
    }

    /** All size lines that are still to come fit the buffer. */
    ghost predicate LinesFit(w: Rest)
      reads `total
    {
      total > 0 ==> Fits(w, resp.data.Length)
    }

    /** What the buffer holds and all that comes before a call that yields nothing. */
    ghost function Soon(): string
      reads resp, resp.data, conn
      requires resp.Valid()
    {
      resp.Text() + Straight(conn.script)
    }

    /** There is no size line, and no read will yield a byte any more. */
    ghost predicate Stuck()
      reads resp, resp.data, conn
      requires resp.Valid()
    {
      NoLine(resp.Text()) && (resp.GetFree() == 0 || (Straight(conn.script) == "" && Ends(conn.script)))
    }

    method InternalRead() returns (n: int)
      requires resp.Valid()
      modifies conn, resp, resp.data
      ensures resp.Valid() && old(resp.Text()) <= resp.Text() && Future() == old(Future())
      ensures -1 <= n && resp.len == old(resp.len) + (if n > 0 then n else 0)
      ensures Size(conn.script) + (if n > 0 then n else 0) <= old(Size(conn.script))
      ensures old(Blocking(conn.script)) ==> Blocking(conn.script)
      ensures n >= 0 ==> Soon() == old(Soon()) && Ends(conn.script) == old(Ends(conn.script))
      ensures n == 0 ==> conn.script == old(conn.script) && resp.Text() == old(resp.Text())
      ensures n == 0 ==> resp.GetFree() == 0 || (Straight(conn.script) == "" && Ends(conn.script))
      ensures n > 0 ==> old(resp.GetFree() > 0 && Straight(conn.script) != "")
      ensures n == -1 ==> old(resp.GetFree() > 0 && Straight(conn.script) == "" && !Ends(conn.script))
    {
      hide Straight, Pending, Ends, EverOpen, Blocking, Size;
      ghost var text := resp.Text();
      n := resp.ReadFrom(conn, resp.GetFree());
      Assoc(text, resp.Text()[|text|..], Pending(conn.script));
      Assoc(text, resp.Text()[|text|..], Straight(conn.script));
      assert resp.Text() == text + resp.Text()[|text|..];
    }

    /** Takes a size line off the buffer; None stands for the exception. */
    method ParseChunk() returns (r: Option<nat>)
      requires resp.Valid()
      modifies resp, resp.data
      ensures resp.Valid()
      ensures r == SizeAtHand(old(resp.Text()))
      ensures r.Some? ==> FindSpec(old(resp.Text()), CRLF).Some?
      ensures r.Some? ==> resp.Text() == old(resp.Text())[FindSpec(old(resp.Text()), CRLF).value + 2..]
    {
      hide FindSpec, HexRead, Trim;
      var pos := Find(resp.Text(), CRLF);
      if pos == None {
        return None;
      }
      var hex := Trim(resp.Text()[..pos.value]);
      if hex == "" {
        return None;
      }
      var len := ToInteger(hex);
      if len < 0 {
        return None;
      }
      resp.Crop(pos.value + 2);
      return Some(len);
    }

    method ProcessChunk() returns (ok: bool)
      requires resp.Valid()
      modifies this`total, this`canRead, resp, resp.data
      ensures resp.Valid()
      ensures ok && old(resp.len) > 0 ==> total >= 0 && FindSpec(old(resp.Text()), CRLF).Some?
      ensures old(resp.len) > 0 ==>
                && (ok <==> SizeAtHand(old(resp.Text())).Some?)
                && (ok ==>
                      && total == SizeAtHand(old(resp.Text())).value
                      && canRead == (if resp.len >= total then total else resp.len)
                      && resp.Text() == old(resp.Text())[FindSpec(old(resp.Text()), CRLF).value + 2..])
    {
      hide *;
      LineHasLength(resp.Text());
      if resp.len > 0 {
        var len := ParseChunk();
        if len == None {
          return false;
        }
        total := len.value;
        canRead := if resp.len >= total then total else resp.len;
      }
      ok := true;
    }

    /** Waits until the end of the chunk and the whole next size line are in the buffer
        and takes them off. */
    method NextChunk(ghost w: Rest) returns (r: Outcome)
      requires chunked && resp.Valid() && inChunk && read >= total
      modifies this`total, this`read, this`canRead, this`inChunk, conn, resp, resp.data
      ensures r == Got(true) || r.Thrown? || r.Hangs?
      ensures r == NextOutcome(old(Soon()), resp.data.Length, old(Ends(conn.script)))
      ensures r.Got? ==> Valid() && read == 0
      ensures old(Tracks(w)) ==>
                if |NextLine(w)| + 4 <= resp.data.Length then r.Got? && Follows(Next(w)) else r.Hangs?
      ensures old(Tracks(w)) ==>
                if r.Got? then LinesFit(Next(w)) == Fits(w, resp.data.Length) else !Fits(w, resp.data.Length)
    {
      hide *;
      ghost var tracks := Tracks(w);
      if tracks {
        ToCome(w);
        NextFits(w, resp.data.Length);
      }
      r := AwaitLine();
      if tracks {
        StillTracks(w);
      }
      OutcomeNow();
      if r == Got(true) {
        r := TakeLine(w);
        if tracks {
          FitAfter(w);
        }
      }
    }

    /** Once the wait is over, the line at hand decides. */
    lemma OutcomeNow()
      requires resp.Valid()
      ensures forall text, max, ends :: !Awaited(text, max, ends).Got? ==>
                NextOutcome(text, max, ends) == Awaited(text, max, ends)
      ensures resp.len >= 4 && FindSpec(resp.Text()[2..], CRLF).Some? ==>
                var text := Soon();
                forall max, ends :: Awaited(text, max, ends) == Got(true) ==>
                  NextOutcome(text, max, ends) ==
                  if SizeAtHand(resp.Text()[2..]).Some? then Got(true) else Thrown(MalformedChunk)
    {
      hide Awaited, SizeAtHand, FindSpec, Straight;
      if resp.len >= 4 && FindSpec(resp.Text()[2..], CRLF).Some? {
        var text := resp.Text();
        assert (text + Straight(conn.script))[2..] == text[2..] + Straight(conn.script);
        SameSize(text[2..], Straight(conn.script));
      }
    }

    /** What comes on a stream in order. */
    lemma ToCome(w: Rest)
      requires Tracks(w) && read >= total
      ensures Blocking(conn.script)
      ensures Future() == Following(w) && w.data == "" && WellFormed(w) && read == total
      ensures Awaited(Soon(), resp.data.Length, Ends(conn.script)) ==
              if |NextLine(w)| + 4 <= resp.data.Length then Got(true) else Hangs
    {
      hide WellFormed, Following, FindSpec, Pending, Straight, Behind, NextLine, Trim, Awaited;
      NextOnWire(w);
      FitsOrHangs(NextLine(w), Behind(w), resp.data.Length, Ends(conn.script));
    }

    lemma StillTracks(w: Rest)
      requires chunked && resp.Valid() && Blocking(conn.script) && Future() == Following(w)
      requires w.data == "" && WellFormed(w) && read == total
      ensures Tracks(w)
    {
    }

    lemma FitAfter(w: Rest)
      requires WellFormed(w) && Follows(Next(w)) && read == 0 && |NextLine(w)| + 4 <= resp.data.Length
      ensures LinesFit(Next(w)) == Fits(w, resp.data.Length)
    {
      NextFits(w, resp.data.Length);
      assert w.chunks != [] ==> w.chunks[0] in w.chunks;
    }

    /** Takes off the chunk end and the size line. */
    method TakeLine(ghost w: Rest) returns (r: Outcome)
      requires chunked && resp.Valid() && resp.len >= 4 && FindSpec(resp.Text()[2..], CRLF).Some?
      modifies this`total, this`read, this`canRead, this`inChunk, resp, resp.data
      ensures r == if SizeAtHand(old(resp.Text())[2..]).Some? then Got(true) else Thrown(MalformedChunk)
      ensures r.Got? ==> Valid() && read == 0
      ensures old(Tracks(w) && read >= total) ==> r.Got? && Follows(Next(w))
    {
      hide *;
      ghost var tracks := Tracks(w) && read >= total;
      if tracks {
        AtLine(w);
      }
      resp.Crop(2);
      inChunk := false;
      LineHasLength(resp.Text());
      var ok := ProcessChunk();
      if !ok {
        return Thrown(MalformedChunk);
      }
      read := 0;
      inChunk := true;
      ValidAgain();
      if tracks {
        Arrives(w);
      }
      r := Got(true);
    }

    lemma ValidAgain()
      requires chunked && resp.Valid() && inChunk && read == 0 && total >= 0
      requires canRead == if resp.len >= total then total else resp.len
      ensures Valid()
    {
    }

    lemma AtLine(w: Rest)
      requires Tracks(w) && read >= total && resp.len >= 4 && FindSpec(resp.Text()[2..], CRLF).Some?
      ensures var line := resp.Text()[2..];
              && SizeAtHand(line) == Some(NextSize(w))
              && FindSpec(line, CRLF).value + 2 <= |line|
              && line[FindSpec(line, CRLF).value + 2..] + Pending(conn.script) == Behind(w)
      ensures Blocking(conn.script) && WellFormed(Next(w))
      ensures NextSize(w) == 0 ==> w.chunks == []
    {
      hide WellFormed, Following, FindSpec, Pending, Behind, NextLine, IsHex, HexValue, Trim, Next, NextSize, Blocking;
      NextOnWire(w);
      EndView(NextLine(w), Behind(w), resp.Text(), Pending(conn.script));
    }

    lemma Arrives(w: Rest)
      requires chunked && resp.Valid() && Blocking(conn.script) && WellFormed(Next(w))
      requires resp.Text() + Pending(conn.script) == Behind(w) && total == NextSize(w) && read == 0
      requires NextSize(w) == 0 ==> w.chunks == []
      ensures Follows(Next(w))
    {
    }

    /** One pass of the retry loop; None goes back to its start. From a stuck state it goes
        back with nothing changed, so that the loop is never left. */
    method Retry() returns (r: Option<Outcome>)
      requires resp.Valid()
      modifies conn, resp, resp.data
      ensures resp.Valid() && Future() == old(Future())
      ensures old(Blocking(conn.script)) ==> Blocking(conn.script)
      ensures old(Stuck()) ==> r == None && conn.script == old(conn.script) && resp.Text() == old(resp.Text())
      ensures r.Some? ==> r.value == Awaited(old(Soon()), resp.data.Length, old(Ends(conn.script)))
      ensures r.Some? ==> r.value == Got(true) || r.value.Thrown?
      ensures r.Some? && r.value.Got? ==>
                Soon() == old(Soon()) && resp.len >= 4 && FindSpec(resp.Text()[2..], CRLF).Some?
      ensures r == None ==> Soon() == old(Soon()) && Ends(conn.script) == old(Ends(conn.script))
      ensures r == None ==> old(resp.len) <= resp.len
      ensures r == None && resp.len > old(resp.len) ==> Size(conn.script) < old(Size(conn.script))
      ensures r == None && resp.len == old(resp.len) ==>
                Stuck() && Awaited(Soon(), resp.data.Length, Ends(conn.script)) == Hangs
    {
      hide *;
      ghost var text := resp.Text();
      SeenSoFar();
      if resp.len >= 2 {
        if resp.Text()[..2] != CRLF {
          return Some(Thrown(MalformedChunk));
        }
        var pos := Find(resp.Text()[2..], CRLF);
        if pos.Some? {
          return Some(Got(true));
        }
      }
      var n := InternalRead();
      if n == -1 {
        return Some(Thrown(ConnectionError));
      }
      if n == 0 {
        StuckNow();
      }
      r := None;
    }

    lemma StuckNow()
      requires resp.Valid() && NoLine(resp.Text())
      requires resp.GetFree() == 0 || (Straight(conn.script) == "" && Ends(conn.script))
      ensures Stuck() && Awaited(Soon(), resp.data.Length, Ends(conn.script)) == Hangs
    {
      SeenSoFar();
      hide Awaited, Straight, Ends, FindSpec;
    }

    lemma SeenSoFar()
      requires resp.Valid()
      ensures var text, max, ends := resp.Text(), resp.data.Length, Ends(conn.script);
              var r := Awaited(Soon(), max, ends);
              if |text| >= 2 && text[..2] != CRLF then r == Thrown(MalformedChunk) && !Stuck()
              else if |text| >= 2 && FindSpec(text[2..], CRLF).Some? then r == Got(true) && |text| >= 4 && !Stuck()
              else
                && NoLine(text)
                && (Stuck() ==> |text| == max || (Straight(conn.script) == "" && ends))
                && (|text| == max ==> r == Hangs)
                && (|text| < max && Straight(conn.script) == "" ==>
                   r == if ends then Hangs else Thrown(ConnectionError))
    {
      hide FindSpec, Awaited, Straight, Ends;
      Shown(resp.Text(), Straight(conn.script), resp.data.Length, Ends(conn.script));
      if resp.len >= 2 {
        LineHasLength(resp.Text()[2..]);
      }
    }

    /** Waits for a whole size line. A pass that gets no byte leaves a stuck state, in which
        the source stays for ever. */
    method AwaitLine() returns (r: Outcome)
      requires resp.Valid()
      modifies conn, resp, resp.data
      ensures resp.Valid() && Future() == old(Future())
      ensures old(Blocking(conn.script)) ==> Blocking(conn.script)
      ensures r == Got(true) || r.Thrown? || r.Hangs?
      ensures r == Awaited(old(Soon()), resp.data.Length, old(Ends(conn.script)))
      ensures r.Got? ==> Soon() == old(Soon()) && resp.len >= 4 && FindSpec(resp.Text()[2..], CRLF).Some?
      ensures r.Hangs? ==> Stuck()
    {
      hide *;
      SeenSoFar();
      if resp.len == 0 {
        var n := InternalRead();
        if n == -1 {
          return Thrown(ConnectionError);
        }
      }
      while true
        invariant resp.Valid() && Future() == old(Future()) && Soon() == old(Soon())
        invariant Ends(conn.script) == old(Ends(conn.script))
        invariant old(Blocking(conn.script)) ==> Blocking(conn.script)
        decreases Size(conn.script)
      {
        var len := resp.len;
        var pass := Retry();
        if pass.Some? {
          return pass.value;
        } else if resp.len == len {
          return Hangs;
        }
      }
    }

    method Close()
      modifies this`closed
      ensures closed
    {
      closed := true;
    }

    /** Gets the next part of the body into the caller's buffer. With a chunked body in order,
        the answer is false only at its end, and a size line that does not fit the response
        buffer is all that keeps the call from an answer. With a plain body, the buffer gets
        all that it has room for; if the length is not known, the answer is false as soon as
        the body ends, with the last part in the buffer. */
    method Read(res: TextBuffer, ghost w: Rest, ghost text: string)
      returns (r: Outcome, ghost w': Rest, ghost text': string)
      requires Valid() && res.Valid() && 0 < res.data.Length && res != resp && res.data != resp.data
      modifies this`closed, this`total, this`read, this`canRead, this`inChunk, conn, resp, resp.data, res, res.data
      ensures res.Valid()
      ensures r.Got? ==> Valid()
      ensures r == Got(false) ==>
                || old(closed || total == 0 || (!chunked && 0 <= total <= read))
                || (Straight(conn.script) == "" && Ends(conn.script))
      ensures var done := old(total != -1 && (total == 0 || read >= total));
              && (old(closed) || done ==> r == Got(false) && res.Text() == "")
              && closed == (old(closed) || (done && !keepAlive))
      ensures old(!closed && chunked && total > 0) ==>
                var soon, n, room := old(Soon()), old(total - read), res.data.Length;
                && res.Text() == ChunkPart(soon, n, room)
                && r == ChunkAnswer(soon, n, room, resp.data.Length, old(Ends(conn.script)))
      ensures old(!closed && Follows(w)) ==> !r.Thrown? && (r.Hangs? ==> old(!LinesFit(w)))
      ensures old(!closed && Follows(w)) && r.Got? ==>
                && Decoded(w) == res.Text() + Decoded(w')
                && (if r.more then !closed && Follows(w') && res.Text() != "" && LinesFit(w') == old(LinesFit(w))
                    else res.Text() == "" && Decoded(w') == "" && old(LinesFit(w)))
      ensures old(!closed && Plain(text)) ==>
                && total == old(total) && PlainPart(text, res.Text(), text', res.data.Length)
                && r == Got(if total == -1 then |text| >= res.data.Length else text != "")
                && (r.more ==> !closed && Plain(text'))
    {
      hide Pending, Straight, Ends, Following, WellFormed, AllData, Size, Blocking, Fits, ChunkPart, ChunkAnswer, Soon;
      w', text' := w, text;
      res.Clear();
      if closed {
        r := Got(false);
        return;
      }
      if total != -1 {
        if total == 0 || read >= total {
          DoneDecoded(w);
          if !keepAlive {
            Close();
          }
          r := Got(false);
          return;
        }
      }
      var full := canRead > res.data.Length;
      ghost var part: nat := if full then res.data.Length else canRead;
      ChunkSplit(part, res.data.Length);
      if canRead > 0 {
        w', text' := TakeBuffered(res, w, text, if full then res.data.Length else canRead);
      }
      if full {
        r := Got(true);
      } else if chunked {
        r, w' := Fill(res, w');
      } else {
        r, text' := FillPlain(res, text');
      }
    }

    /** What the bytes in the response buffer make of the answer. */
    lemma ChunkSplit(c: nat, size: nat)
      requires resp.Valid() && c <= size && c <= resp.len && (chunked ==> c <= total - read)
      ensures var soon, n, max, ends := Soon(), total - read, resp.data.Length, Ends(conn.script);
              && c <= |soon| && soon[..0] == "" && soon[0..] == soon
              && (chunked ==>
                    && ChunkPart(soon, n, size) == soon[..c] + ChunkPart(soon[c..], n - c, size - c)
                    && ChunkAnswer(soon, n, size, max, ends) == ChunkAnswer(soon[c..], n - c, size - c, max, ends)
                    && (c == size < n ==>
                          ChunkPart(soon, n, size) == soon[..c] && ChunkAnswer(soon, n, size, max, ends) == Got(true)))
    {
      if chunked {
        ChunkLater(Soon(), total - read, size, resp.data.Length, Ends(conn.script), c);
      }
      hide NextOutcome;
    }

    /** Move n characters from the response buffer to the caller's. */
    method MoveOut(res: TextBuffer, n: nat)
      requires resp.Valid() && canRead == Readable() && res.Valid() && res != resp && res.data != resp.data
      requires n <= canRead && n <= res.data.Length
      modifies this`read, this`canRead, resp, resp.data, res, res.data
      ensures resp.Valid() && res.Valid() && res.len == n <= old(|resp.Text()|)
      ensures res.Text() == old(resp.Text())[..n] && resp.Text() == old(resp.Text())[n..]
      ensures read == old(read) + n && canRead == old(canRead) - n == Readable()
    {
      res.Copy(resp.Text()[..n]);
      resp.Crop(n);
      read := read + n;
      canRead := canRead - n;
    }

    /** Hands out n bytes that are in the response buffer. */
    method TakeBuffered(res: TextBuffer, ghost w: Rest, ghost text: string, n: nat)
      returns (ghost w': Rest, ghost text': string)
      requires Valid() && res.Valid() && res != resp && res.data != resp.data
      requires n <= canRead && n <= res.data.Length
      modifies this`read, this`canRead, resp, resp.data, res, res.data
      ensures resp.Valid() && res.Valid() && res.len == n
      ensures read == old(read) + n && canRead == old(canRead) - n == Readable()
      ensures old(Tracks(w)) ==>
                Tracks(w') && Decoded(w) == res.Text() + Decoded(w') && LinesFit(w') == old(LinesFit(w))
      ensures old(Plain(text)) ==> Plain(text') && text == res.Text() + text'
      ensures n <= |old(Soon())| && res.Text() == old(Soon())[..n] && Soon() == old(Soon())[n..]
      ensures conn.script == old(conn.script)
    {
      hide *;
      Counters();
      SoonIs();
      ghost var was, tracks, plain := resp.Text(), Tracks(w), Plain(text);
      if tracks {
        TracksIs(w);
      }
      if plain {
        PlainIs(text);
      }
      MoveOut(res, n);
      w' := if n <= |w.data| then w.(data := w.data[n..]) else w;
      text' := resp.Text() + Pending(conn.script);
      CutFront(was, n, Pending(conn.script));
      FrontAndRest(was, n, Straight(conn.script));
      SoonIs();
      if tracks {
        FrontTaken(w, w', was, n, Pending(conn.script), resp.data.Length);
        NowTracks(w');
        SameFit(w, w');
      }
      if plain {
        NowPlain(text');
      }
    }

    lemma Counters()
      ensures Valid() ==> resp.Valid() && canRead == Readable()
      ensures Readable() == if chunked && resp.len >= total - read then total - read else resp.len
    {
    }

    lemma TracksIs(w: Rest)
      requires Tracks(w)
      ensures chunked && resp.Valid() && Blocking(conn.script) && WellFormed(w)
      ensures resp.Text() + Pending(conn.script) == w.data + Following(w) && read <= total && |w.data| == total - read
    {
    }

    lemma NowTracks(w: Rest)
      requires chunked && resp.Valid() && Blocking(conn.script) && WellFormed(w)
      requires resp.Text() + Pending(conn.script) == w.data + Following(w) && read <= total && |w.data| == total - read
      ensures Tracks(w)
    {
    }

    lemma SameFit(w: Rest, w': Rest)
      requires Fits(w', resp.data.Length) == Fits(w, resp.data.Length)
      ensures LinesFit(w') == LinesFit(w)
    {
    }

    lemma PlainIs(text: string)
      requires Plain(text)
      ensures !chunked && resp.Valid() && Blocking(conn.script) && resp.Text() + Pending(conn.script) == text
      ensures if total == -1 then Ends(conn.script) else |text| == total - read
    {
    }

    lemma NowPlain(text: string)
      requires !chunked && resp.Valid() && Blocking(conn.script) && resp.Text() + Pending(conn.script) == text
      requires if total == -1 then Ends(conn.script) else |text| == total - read
      ensures Plain(text)
    {
    }

    /** Reads into the caller's buffer until it is full or the body has ended. */
    method FillPlain(res: TextBuffer, ghost text: string) returns (r: Outcome, ghost text': string)
      requires !chunked && Valid() && resp.len == 0
      requires res.Valid() && res != resp && res.data != resp.data
      modifies this`read, conn, res, res.data
      ensures res.Valid() && Valid()
      ensures r.Got? || r == Thrown(ConnectionError)
      ensures r == Got(false) ==> Straight(conn.script) == "" && Ends(conn.script)
      ensures old(Plain(text)) ==>
                && Plain(text') && old(res.Text()) + text == res.Text() + text'
                && (res.GetFree() == 0 || text' == "")
                && r == Got(total != -1 || res.GetFree() == 0)
    {
      hide *;
      text' := text;
      while total == -1 || read < total
        invariant Valid() && resp.len == 0 && res.Valid()
        invariant old(Plain(text)) ==> Plain(text') && old(res.Text()) + text == res.Text() + text'
        decreases res.data.Length - res.len
      {
        if res.GetFree() == 0 {
          break;
        }
        var n: int;
        n, text' := ReadPlain(res, text');
        if n == -1 {
          return Thrown(ConnectionError), text';
        } else if n == 0 {
          return Got(false), text';
        }
      }
      if Plain(text') && total != -1 && read >= total {
        PlainIsDone(text');
      }
      r := Got(true);
    }

    /** Reads as much as the caller's buffer has room for, even beyond the end of the body. */
    method ReadPlain(res: TextBuffer, ghost text: string) returns (n: int, ghost text': string)
      requires !chunked && Valid() && resp.len == 0
      requires res.Valid() && res.GetFree() > 0 && res != resp && res.data != resp.data
      modifies this`read, conn, res, res.data
      ensures res.Valid() && Valid() && -1 <= n
      ensures res.len == old(res.len) + (if n > 0 then n else 0)
      ensures n == 0 ==> Straight(conn.script) == "" && Ends(conn.script)
      ensures old(Plain(text) && (total == -1 || read < total)) ==>
                && n >= 0 && Plain(text') && old(res.Text()) + text == res.Text() + text'
                && (n == 0 ==> total == -1 && text' == "")
    {
      hide *;
      StillPlain();
      ghost var plain := Plain(text) && (total == -1 || read < total);
      if plain {
        PlainComes(text);
      }
      ghost var was := res.Text();
      n := res.ReadFrom(conn, res.GetFree());
      if n > 0 {
        read := read + n;
      }
      StillPlain();
      ghost var got := res.Text()[|was|..];
      assert res.Text() == was + got;
      text' := Pending(conn.script);
      if plain {
        Assoc(was, got, text');
        assert resp.Text() + text' == text';
        NowPlain(text');
      }
    }

    lemma StillPlain()
      ensures !chunked && resp.len == 0 ==> (Valid() <==> resp.Valid() && canRead == 0 && total >= -1)
    {
    }

    /** What comes if the body is not at its end. */
    lemma PlainComes(text: string)
      requires Plain(text) && resp.len == 0
      ensures Blocking(conn.script) && text == Pending(conn.script) == Straight(conn.script)
      ensures if total == -1 then Ends(conn.script) else |text| == total - read
    {
    }

    lemma PlainIsDone(text: string)
      requires Plain(text) && total != -1 && read >= total
      ensures text == ""
    {
    }

    /** Reads into the caller's buffer until it is full or the chunk is complete; in
        the latter case the next chunk is begun. */
    method Fill(res: TextBuffer, ghost w: Rest) returns (r: Outcome, ghost w': Rest)
      requires chunked && resp.Valid() && inChunk && 0 < total && read <= total
      requires canRead == 0 && (read < total ==> resp.len == 0)
      requires res.Valid() && 0 < res.data.Length && res != resp && res.data != resp.data
      requires read == total ==> res.len > 0
      modifies this`total, this`read, this`canRead, this`inChunk, conn, resp, resp.data, res, res.data
      ensures res.Valid()
      ensures r.Got? ==> Valid()
      ensures r == Got(false) ==> Straight(conn.script) == "" && Ends(conn.script)
      ensures var soon, n, room := old(Soon()), old(total - read), old(res.GetFree());
              && res.Text() == old(res.Text()) + ChunkPart(soon, n, room)
              && r == ChunkAnswer(soon, n, room, resp.data.Length, old(Ends(conn.script)))
      ensures old(Tracks(w)) ==> r == Got(true) || (r.Hangs? && old(!LinesFit(w)))
      ensures old(Tracks(w)) && r.Got? ==>
                && Follows(w') && res.Text() != "" && LinesFit(w') == old(LinesFit(w))
                && old(res.Text()) + Decoded(w) == res.Text() + Decoded(w')
    {
      hide *;
      w' := w;
      FitsNow(w);
      ghost var start, soon, n0: nat, room, got := res.Text(), Soon(), total - read, res.GetFree(), "";
      assert start + got == start && got + soon == soon;
      while true
        invariant resp.Valid() && inChunk && 0 < total && read <= total
        invariant canRead == 0 && (read < total ==> resp.len == 0)
        invariant res.Valid() && (read == total ==> res.len > 0)
        invariant total == old(total) && res.Text() == start + got && got + Soon() == soon
        invariant read == old(read) + |got| && |got| <= room == |got| + res.GetFree()
        invariant Ends(conn.script) == old(Ends(conn.script))
        invariant old(Tracks(w)) ==> Tracks(w') && old(res.Text()) + Decoded(w) == res.Text() + Decoded(w')
        invariant old(Tracks(w)) ==> LinesFit(w') == old(LinesFit(w)) == Fits(w', resp.data.Length)
        decreases total - read
      {
        ChunkNow(soon, n0, room, got, Soon(), resp.data.Length, Ends(conn.script));
        if read >= total {
          if old(Tracks(w)) {
            ChunkIsDone(w');
          }
          r := NextChunk(w');
          w' := Next(w');
          return;
        }
        if res.GetFree() == 0 {
          break;
        }
        var n: int;
        ghost var was, straight := res.Text(), Straight(conn.script);
        SoonIs();
        n, w' := ReadDirect(res, w');
        SoonIs();
        if n >= 0 {
          ghost var part := res.Text()[|was|..];
          CutOff(start, got, soon, straight, res.Text(), Straight(conn.script));
          got := got + part;
          assert res.len + res.GetFree() == res.data.Length && |part| == res.len - |was|;
        }
        FitsNow(w');
        if n == -1 {
          return Thrown(ConnectionError), w';
        } else if n == 0 {
          InMidChunk(w');
          return Got(false), w';
        }
      }
      InMidChunk(w');
      r := Got(true);
    }

    lemma SoonIs()
      requires resp.Valid()
      ensures Soon() == resp.Text() + Straight(conn.script)
      ensures resp.len == 0 ==> Soon() == Straight(conn.script)
    {
    }

    lemma FitsNow(w: Rest)
      requires total > 0
      ensures LinesFit(w) == Fits(w, resp.data.Length)
    {
    }

    lemma ChunkIsDone(w: Rest)
      requires Tracks(w) && read == total
      ensures Decoded(Next(w)) == Decoded(w)
    {
      NextDecoded(w);
    }

    lemma InMidChunk(w: Rest)
      requires chunked && resp.Valid() && inChunk && canRead == 0 == resp.len && read < total
      ensures Valid() && (Tracks(w) ==> Follows(w))
    {
    }

    /** Reads into the caller's buffer, but no more than the rest of the chunk. */
    method ReadDirect(res: TextBuffer, ghost w: Rest) returns (n: int, ghost w': Rest)
      requires resp.Valid() && read < total && resp.len == 0
      requires res.Valid() && res.GetFree() > 0 && res != resp && res.data != resp.data
      modifies this`read, conn, res, res.data
      ensures res.Valid() && -1 <= n
      ensures read == old(read) + (if n > 0 then n else 0) <= total
      ensures res.len == old(res.len) + (if n > 0 then n else 0) && old(res.Text()) <= res.Text()
      ensures n == 0 ==> Straight(conn.script) == "" && Ends(conn.script)
      ensures n >= 0 ==> Ends(conn.script) == old(Ends(conn.script))
      ensures n >= 0 ==> old(res.Text()) + old(Straight(conn.script)) == res.Text() + Straight(conn.script)
      ensures n == -1 ==> old(Straight(conn.script)) == "" && !old(Ends(conn.script)) && res.Text() == old(res.Text())
      ensures old(Tracks(w)) ==>
                && n > 0 && Tracks(w') && Fits(w', resp.data.Length) == Fits(w, resp.data.Length)
                && old(res.Text()) + Decoded(w) == res.Text() + Decoded(w')
    {
      hide *;
      ghost var tracks := Tracks(w);
      if tracks {
        ComesDirectly(w);
      }
      var length := res.GetFree();
      if length > total - read {
        length := total - read;
      }
      ghost var text := res.Text();
      ghost var straight := Straight(conn.script);
      n := res.ReadFrom(conn, length);
      ghost var got := res.Text()[|text|..];
      assert res.Text() == text + got;
      Assoc(text, got, Straight(conn.script));
      if n > 0 {
        read := read + n;
      } else {
        assert got == "" && res.Text() == text;
      }
      w' := w;
      if tracks {
        w' := w.(data := w.data[|got|..]);
        CutBoth(got, Pending(conn.script), w.data, Following(w), |got|);
        SameRest(w, w', resp.data.Length);
        DecodedMoves(text, res.Text(), w, w');
        assert resp.Text() + Pending(conn.script) == Pending(conn.script);
        NowTracks(w');
      }
    }

    lemma ComesDirectly(w: Rest)
      requires Tracks(w) && read < total && resp.len == 0
      ensures chunked && Blocking(conn.script) && Pending(conn.script) != "" && WellFormed(w)
      ensures Pending(conn.script) == w.data + Following(w) && |w.data| == total - read
    {
    }

    /** Reads a body to its end, through a buffer of the given size. Parts that would
        exceed the maximum are skipped. With a chunked body, this hangs exactly if a size
        line does not fit. */
    method ReadAll(max: nat, chunkSize: nat, ghost w: Rest, ghost text: string) returns (out: string, hangs: bool)
      requires Valid() && 0 < chunkSize && !closed && (Follows(w) || Plain(text))
      modifies this`closed, this`total, this`read, this`canRead, this`inChunk, conn, resp, resp.data
      ensures |out| <= max
      ensures old(Follows(w)) ==> (hangs <==> !old(LinesFit(w)))
      ensures old(Follows(w)) && !hangs && |Decoded(w)| <= max ==> out == Decoded(w)
      ensures old(Plain(text)) ==> !hangs
      ensures old(Plain(text)) && |Kept(text, old(total), chunkSize)| <= max ==>
              out == Kept(text, old(total), chunkSize)
    {
      hide *;
      ghost var follows, fits, plain, length := Follows(w), LinesFit(w), Plain(text), total;
      ghost var kept := Kept(text, total, chunkSize);
      OneKind(w, text);
      out := "";
      var buf := new TextBuffer(chunkSize);
      ghost var rest, later := w, text;
      var r: Outcome;
      r, rest, later := Read(buf, rest, later);
      if plain {
        KeptStep(text, buf.Text(), later, length, chunkSize);
      }
      while r == Got(true)
        invariant buf.Valid() && |out| <= max && !r.Thrown? && (r.Hangs? ==> follows && !fits)
        invariant r == Got(true) ==> Valid() && !closed && buf.Text() != ""
        invariant follows && r == Got(true) ==> Follows(rest) && LinesFit(rest) == fits
        invariant follows && r == Got(false) ==> buf.Text() == "" && Decoded(rest) == "" && fits
        invariant follows && r.Got? && |Decoded(w)| <= max ==> Decoded(w) == out + (buf.Text() + Decoded(rest))
        invariant plain && r == Got(true) ==> Plain(later) && total == length
        invariant plain && |kept| <= max ==>
                    kept == out + (if r.more then buf.Text() + Kept(later, length, chunkSize) else "")
        decreases if r == Got(true) then (if follows then |Decoded(rest)| else |later|) + 1 else 0
      {
        ghost var part, before, was := buf.Text(), out, later;
        if |out| + buf.len <= max {
          out := out + buf.Text();
        }
        r, rest, later := Read(buf, rest, later);
        if plain {
          KeptStep(was, buf.Text(), later, length, chunkSize);
          Assoc(before, part, Kept(was, length, chunkSize));
        } else {
          Assoc(before, part, buf.Text() + Decoded(rest));
        }
      }
      hangs := r.Hangs?;
    }

    lemma OneKind(w: Rest, text: string)
      ensures !(Follows(w) && Plain(text))
    {
    }
  }

  /** The peer may close the connection behind the body. */
  method ClosedBehindBody() returns (out: string)
    ensures out == "abc"
  {
    var wire := "abc" + (CRLF + "0" + CRLF + CRLF);
    var script: Script := [Data(wire), Closed];
    var conn := new Conn(script);
    var resp := new TextBuffer(16);
    var client := new Client(conn, resp, true, true, 3);
    ghost var w := Rest("abc", [], "0", CRLF);
    assert script[1..] == [Closed] && Straight(script[1..]) == "" == Pending(script[1..]);
    assert resp.Text() + Pending(script) == wire;
    ZerosHex("0");
    assert Trim("0") == "0";
    var hangs: bool;
    out, hangs := client.ReadAll(100, 2, w, "");
  }

  /** Size lines may hold letters. */
  method DecodesLetters() returns (out: string)
    ensures out == "abc0123456789"
  {
    var data := "0123456789";
    var wire := "abc" + (CRLF + "a" + CRLF + (data + (CRLF + "0" + CRLF + CRLF)));
    var script: Script := [Data(wire), Closed];
    var conn := new Conn(script);
    var resp := new TextBuffer(16);
    var client := new Client(conn, resp, true, true, 3);
    ghost var w := Rest("abc", [Chunk("a", data)], "0", CRLF);
    LettersInOrder(w, data);
    assert script[1..] == [Closed] && Straight(script[1..]) == "" == Pending(script[1..]);
    assert resp.Text() + Pending(script) == wire;
    var hangs: bool;
    out, hangs := client.ReadAll(100, 4, w, "");
  }

  lemma DigitLine(d: nat)
    requires d < 16
    ensures SizeLine([SYMBOLS[d]], d) && [SYMBOLS[d]] != ""
  {
    var line := [SYMBOLS[d]];
    HexPrints(d, SYMBOLS);
    assert HexPrinted(d, SYMBOLS) == "" + line == line;
    assert SYMBOLS[d] !in [' ', '\t', '\n', '\r', '\0', 11 as char];
    hide HexValue, IsHex;
  }

  lemma LettersInOrder(w: Rest, data: string)
    requires data == "0123456789" && w == Rest("abc", [Chunk("a", data)], "0", CRLF)
    ensures WellFormed(w) && Fits(w, 16) && Decoded(w) == "abc0123456789"
    ensures Following(w) == CRLF + "a" + CRLF + (data + (CRLF + "0" + CRLF + CRLF))
  {
    DigitLine(10);
    DigitLine(0);
    assert [SYMBOLS[10]] == "a" && [SYMBOLS[0]] == "0" && w.chunks[1..] == [];
    assert AllData(w.chunks) == data + AllData([]) == data;
    hide SizeLine;
  }

  /** Nothing is missing on the stream, but the last size line needs seven bytes. */
  method HangsAtLongLine() returns (hangs: bool)
    ensures hangs
  {
    var wire := "abc" + (CRLF + "  0" + CRLF + CRLF);
    var script: Script := [Data(wire)];
    var conn := new Conn(script);
    var resp := new TextBuffer(6);
    var client := new Client(conn, resp, true, true, 3);
    ghost var w := Rest("abc", [], "  0", CRLF);
    assert script[1..] == [] && Straight(script[1..]) == "" == Pending(script[1..]);
    assert resp.Text() + Pending(script) == wire;
    ZerosHex("0");
    assert "  0"[1..] == " 0" && " 0"[1..] == "0" && Trim("  0") == "0";
    var out: string;
    out, hangs := client.ReadAll(100, 2, w, "");
  }

  /** A body of unknown length is read to the end, but its last part is not returned. */
  method LosesLastPart() returns (out: string)
    ensures out == "ab"
  {
    var script: Script := [Data("abc"), Closed];
    var conn := new Conn(script);
    var resp := new TextBuffer(16);
    var client := new Client(conn, resp, false, false, -1);
    assert script[1..] == [Closed] && Straight(script[1..]) == "" == Pending(script[1..]);
    assert resp.Text() + Pending(script) == "abc" && "abc"[..2] == "ab";
    var hangs: bool;
    out, hangs := client.ReadAll(100, 2, Rest("", [], "", ""), "abc");
  }

  /** The size that the first line of a buffer announces. */
  ghost function SizeAtHand(text: string): Option<nat> {
    match FindSpec(text, CRLF)
    case None => None
    case Some(p) =>
      var hex := Trim(text[..p]);
      if hex != "" && HexRead(hex) >= 0 then Some(HexRead(hex)) else None
  }

  /** If two texts that agree both start with at least n bytes, so do their rests. */
  lemma CutBoth(text: string, more: string, data: string, following: string, n: nat)
    requires text + more == data + following && n <= |text| && n <= |data|
    ensures text[..n] == data[..n] && text[n..] + more == data[n..] + following
    ensures data == data[..n] + data[n..]
  {
    var whole := text + more;
    assert text[..n] == whole[..n] == data[..n];
    assert text[n..] + more == whole[n..] == data[n..] + following;
  }

  /** A part of a text and what is left: the part is all that a buffer of that size holds. */
  ghost predicate PlainPart(text: string, part: string, rest: string, size: nat) {
    text == part + rest && (|part| == size || (|part| < size && rest == ""))
  }

  /** The greatest multiple of size up to n. */
  function Whole(n: nat, size: nat): (m: nat)
    requires size > 0
    ensures m <= n
  {
    n - n % size
  }

  lemma WholeStep(n: nat, size: nat)
    requires size > 0
    ensures Whole(n, size) == if n < size then 0 else size + Whole(n - size, size)
  {
    if n >= size {
      ModDown(n, size);
    }
  }

  /** What `ReadAll` returns of a plain body: without a length, only what fills the buffer
      again and again. */
  ghost function Kept(text: string, total: int, size: nat): string
    requires size > 0
  {
    if total == -1 then text[..Whole(|text|, size)] else text
  }

  lemma KeptStep(text: string, part: string, rest: string, total: int, size: nat)
    requires size > 0 && PlainPart(text, part, rest, size)
    ensures var more := if total == -1 then |text| >= size else text != "";
            && Kept(text, total, size) == (if more then part + Kept(rest, total, size) else "")
            && (more ==> part != "" && |rest| < |text|)
  {
    hide Whole;
    WholeStep(|text|, size);
    if total == -1 && |text| >= size {
      TakeFront(part, rest, Whole(|rest|, size));
    }
  }

  lemma TakeFront(part: string, rest: string, n: nat)
    requires n <= |rest|
    ensures (part + rest)[..|part| + n] == part + rest[..n]
  {
  }

  /** Nothing is lost exactly if the length is known or is a multiple of the buffer's. */
  lemma KeptIsAll(text: string, total: int, size: nat)
    requires size > 0
    ensures Kept(text, total, size) == text <==> total != -1 || |text| % size == 0
  {
  }

  lemma DoneDecoded(w: Rest)
    ensures w.data == "" && w.chunks == [] ==> Decoded(w) == ""
  {
  }

  /** Only the data of the chunk in work differ. */
  /** The first n characters of the chunk are taken from what has been read. */
  lemma FrontTaken(w: Rest, w': Rest, was: string, n: nat, more: string, max: nat)
    requires n <= |was| && n <= |w.data| && w' == w.(data := w.data[n..]) && WellFormed(w)
    requires was + more == w.data + Following(w)
    ensures was[n..] + more == w'.data + Following(w') && WellFormed(w') && Fits(w', max) == Fits(w, max)
    ensures Decoded(w) == was[..n] + Decoded(w')
  {
    hide *;
    CutBoth(was, more, w.data, Following(w), n);
    SameRest(w, w', max);
    DecodedMoves("", was[..n], w, w');
  }

  lemma SameRest(w: Rest, w': Rest, max: nat)
    requires w' == w.(data := w'.data)
    ensures Following(w') == Following(w) && WellFormed(w') == WellFormed(w) && Fits(w', max) == Fits(w, max)
  {
  }

  lemma DecodedMoves(a: string, b: string, w: Rest, w': Rest)
    requires w' == w.(data := w'.data) && a <= b && w.data == b[|a|..] + w'.data
    ensures a + Decoded(w) == b + Decoded(w')
  {
    assert b == a + b[|a|..];
    assert a + w.data == b + w'.data;
    MoveData(a, b, w.data, w'.data, AllData(w.chunks));
  }

  lemma MoveData(a: string, b: string, d: string, d': string, rest: string)
    requires a + d == b + d'
    ensures a + (d + rest) == b + (d' + rest)
  {
    assert a + (d + rest) == a + d + rest;
    assert b + (d' + rest) == b + d' + rest;
  }

  /** A line end takes two characters. */
  lemma LineHasLength(text: string)
    ensures FindSpec(text, CRLF).Some? ==> FindSpec(text, CRLF).value + 2 <= |text|
  {
  }
}