/** Request framing of src/HTTP/Server.c: one header buffer of fixed size, one body
    buffer per request, and a state machine that is driven whenever the socket has
    data. What a header says about its body is an arbitrary function. */
module HttpServer {
  import opened Chars
  import opened Connection
  import opened HttpHeader
  import opened Sequences

  /** What parsing a header yields: the length and kind of its body, or an exception. */
  datatype HeaderInfo = Info(contentLength: nat, multipart: bool) | Refused

  datatype Exception = HeaderTooLarge | HeaderRefused | RequestMalformed

  datatype State = InHeader | InBody | InDispatch

  datatype Result = Incomplete | Complete | Error | Thrown(exception: Exception)

  /** Whether more data is required, or what was thrown. */
  datatype Answer = More(required: bool) | Raised(exception: Exception)

  datatype Request = Request(header: string, body: string)

  // ----- the reference: cutting a stream into requests

  ghost function Wire(reqs: seq<Request>): string {
    if reqs == [] then "" else reqs[0].header + reqs[0].body + Wire(reqs[1..])
  }

  lemma {:induction false} WireAppend(a: seq<Request>, b: seq<Request>)
    ensures Wire(a + b) == Wire(a) + Wire(b)
  {
    if a == [] {
      assert a + b == b;
    } else {
      assert (a + b)[1..] == a[1..] + b;
      WireAppend(a[1..], b);
    }
  }

  /** The complete requests at the start of a stream that is at hand as a whole. */
  ghost function SplitStream(info: string -> HeaderInfo, s: string): seq<Request>
    decreases |s|
  {
    var n := Length(s);
    if n <= 0 || n > |s| then [] else
    match info(s[..n])
    case Refused => []
    case Info(len, _) =>
      if n + len > |s| then []
      else [Request(s[..n], s[n..n + len])] + SplitStream(info, s[n + len..])
  }

  /** A request whose header ends with its first blank line, fits the header buffer,
      starts with no white space and announces its body's length. */
  ghost predicate WellFormed(info: string -> HeaderInfo, max: nat, r: Request) {
    && 0 < |r.header| <= max
    && IsEarliestEnd(r.header, |r.header|)
    && (forall c | c in r.header :: !IsControl(c))
    && !IsSpace(r.header[0])
    && info(r.header) == Info(|r.body|, false)
  }

  ghost predicate AllWellFormed(info: string -> HeaderInfo, max: nat, reqs: seq<Request>) {
    forall r | r in reqs :: WellFormed(info, max, r)
  }

  /** What a server that answered all requests before says to the next bytes, once the header
      buffer holds them: they are malformed, a header that is refused, too many, or more is
      required. */
  ghost function Verdict(max: nat, text: string): Answer {
    if Length(text) == -1 then More(false)
    else if Length(text) > 0 then Raised(HeaderRefused)
    else if |text| >= max then Raised(HeaderTooLarge)
    else More(true)
  }

  /** Bytes that do not begin with white space, and that no header buffer gets an accepted
      header of. */
  ghost predicate DeadEnd(info: string -> HeaderInfo, max: nat, tail: string) {
    && (tail != "" ==> !IsSpace(tail[0]))
    && forall k: nat {:trigger tail[..k]} | k <= max && k <= |tail| && Length(tail[..k]) > 0 ::
         Length(tail[..k]) <= k && info(tail[..k][..Length(tail[..k])]) == Refused
  }

  lemma NoTail(info: string -> HeaderInfo, max: nat)
    ensures DeadEnd(info, max, "") && Verdict(max, "") == if max == 0 then Raised(HeaderTooLarge) else More(true)
  {
    assert !HasBlankLine("");
  }

  /** With no blank line and no control character, more is required until the buffer is full. */
  lemma TooLarge(info: string -> HeaderInfo, max: nat, tail: string)
    requires max <= |tail| && Length(tail[..max]) == 0 && (tail != "" ==> !IsSpace(tail[0]))
    ensures DeadEnd(info, max, tail)
    ensures forall k: nat | k <= max ::
              Verdict(max, tail[..k]) == if k == max then Raised(HeaderTooLarge) else More(true)
  {
    forall k: nat | k <= max
      ensures Length(tail[..k]) == 0
    {
      assert tail[..k] == tail[..max][..k];
      NothingInFront(tail[..max], k);
    }
  }

  lemma NothingInFront(s: string, k: nat)
    requires k <= |s| && Length(s) == 0
    ensures Length(s[..k]) == 0
  {
    assert s == s[..k] + s[k..];
    forall e: nat
      ensures !BlankLineEndsAt(s[..k], e)
    {
      assert BlankLineEndsAt(s[..k], e) ==> BlankLineEndsAt(s, e);
    }
    forall i | 0 <= i < k - 1
      ensures !IsControl(s[..k][i])
    {
      assert s[..k][i] == s[i];
    }
  }

  /** A header that is refused is refused as soon as it has come, whatever follows it. */
  lemma HeaderIsRefused(info: string -> HeaderInfo, max: nat, h: string, rest: string)
    requires 0 < |h| <= max && IsEarliestEnd(h, |h|) && (forall c | c in h :: !IsControl(c))
    requires !IsSpace(h[0]) && info(h) == Refused
    ensures DeadEnd(info, max, h + rest)
    ensures forall k: nat | k <= max && k <= |h + rest| ::
              Verdict(max, (h + rest)[..k]) == if k < |h| then More(true) else Raised(HeaderRefused)
  {
    var tail := h + rest;
    forall k: nat | k <= max && k <= |tail|
      ensures Length(tail[..k]) == if k < |h| then 0 else |h|
      ensures k >= |h| ==> tail[..k][..|h|] == h
    {
      LengthIs(h, |h|);
      if k >= |h| {
        assert tail[..k] == h + rest[..k - |h|];
        LengthIsFinal(h, rest[..k - |h|]);
      } else {
        BeforeEnd(h, k);
        assert tail[..k] == h[..k];
      }
    }
  }

  lemma BeforeEnd(h: string, k: nat)
    requires IsEarliestEnd(h, |h|) && (forall c | c in h :: !IsControl(c)) && k < |h|
    ensures Length(h[..k]) == 0
  {
    forall e: nat
      ensures !BlankLineEndsAt(h[..k], e)
    {
      assert BlankLineEndsAt(h[..k], e) ==> BlankLineEndsAt(h, e);
    }
    forall i | 0 <= i < k - 1
      ensures !IsControl(h[..k][i])
    {
      assert h[..k][i] in h;
    }
  }

  /** A control character is an error once another byte is behind it, unless there is a blank line. */
  lemma MalformedHeader(info: string -> HeaderInfo, max: nat, tail: string, i: nat)
    requires i < |tail| && IsControl(tail[i]) && !IsSpace(tail[0]) && !HasBlankLine(tail)
    requires forall j | 0 <= j < i :: !IsControl(tail[j])
    ensures DeadEnd(info, max, tail)
    ensures forall k: nat | k <= max && k <= |tail| ::
              Verdict(max, tail[..k]) == if k > i + 1 then More(false)
                                         else if k == max then Raised(HeaderTooLarge) else More(true)
  {
    forall k: nat | k <= max && k <= |tail|
      ensures Length(tail[..k]) == if k > i + 1 then -1 else 0
    {
      forall e: nat
        ensures !BlankLineEndsAt(tail[..k], e)
      {
        assert BlankLineEndsAt(tail[..k], e) ==> BlankLineEndsAt(tail, e);
      }
      if k > i + 1 {
        assert IsControl(tail[..k][i]);
      }
    }
  }

  /** What the header buffer tells when its text is the start of well-formed requests. */
  lemma HeaderView(info: string -> HeaderInfo, max: nat, reqs: seq<Request>, tail: string, text: string)
    requires AllWellFormed(info, max, reqs) && text <= Wire(reqs) + tail
    ensures reqs == [] ==> text <= tail
    ensures reqs != [] && |text| >= |reqs[0].header| ==>
              Length(text) == |reqs[0].header| && text[..|reqs[0].header|] == reqs[0].header
    ensures reqs != [] && |text| < |reqs[0].header| ==> Length(text) == 0
  {
    if reqs == [] {
      assert Wire(reqs) + tail == tail;
    } else {
      var h := reqs[0].header;
      assert Wire(reqs) + tail == h + (reqs[0].body + (Wire(reqs[1..]) + tail));
      assert WellFormed(info, max, reqs[0]);
      hide Wire, AllWellFormed, Length, HasBlankLine, HasControl, IsControl, IsSpace;
      if |text| >= |h| {
        assert text == h + text[|h|..];
        LengthIs(h, |h|);
        LengthIsFinal(h, text[|h|..]);
      } else {
        assert text == h[..|text|];
        BeforeEnd(h, |text|);
      }
    }
  }

  lemma SplitFirst(info: string -> HeaderInfo, max: nat, r: Request, tail: string)
    requires WellFormed(info, max, r)
    ensures SplitStream(info, r.header + r.body + tail) == [r] + SplitStream(info, tail)
  {
    var n, len := |r.header|, |r.body|;
    var s := r.header + r.body + tail;
    assert s == r.header + (r.body + tail);
    LengthIs(r.header, n);
    LengthIsFinal(r.header, r.body + tail);
    assert s[..n] == r.header && s[n..n + len] == r.body && s[n + len..] == tail;
  }

  /** Nothing can be cut off before the first request is complete. */
  lemma SplitPartial(info: string -> HeaderInfo, max: nat, reqs: seq<Request>, tail: string, text: string)
    requires AllWellFormed(info, max, reqs) && DeadEnd(info, max, tail) && text <= Wire(reqs) + tail
    requires if reqs == [] then |text| <= max else |text| < |reqs[0].header| + |reqs[0].body|
    ensures SplitStream(info, text) == []
  {
    HeaderView(info, max, reqs, tail, text);
    if reqs == [] {
      assert text == tail[..|text|];
    } else {
      assert WellFormed(info, max, reqs[0]);
    }
  }

  /** The reference split of n well-formed requests and the start of another one. */
  lemma {:induction false} SplitOfWire(info: string -> HeaderInfo, max: nat, reqs: seq<Request>, tail: string, n: nat,
                                       text: string)
    requires AllWellFormed(info, max, reqs) && DeadEnd(info, max, tail) && n <= |reqs|
    requires text <= Wire(reqs[n..]) + tail
    requires if n == |reqs| then |text| <= max else |text| < |reqs[n].header| + |reqs[n].body|
    ensures SplitStream(info, Wire(reqs[..n]) + text) == reqs[..n]
    decreases n
  {
    hide *;
    if n == 0 {
      NothingOnWire(text);
      assert reqs[0..] == reqs && reqs[..0] == [];
      SplitPartial(info, max, reqs, tail, text);
    } else {
      var rest := reqs[1..];
      AllButFirst(info, max, reqs);
      assert rest[n - 1..] == reqs[n..];
      assert n < |reqs| ==> rest[n - 1] == reqs[n];
      SplitOfWire(info, max, rest, tail, n - 1, text);
      SplitFirst(info, max, reqs[0], Wire(rest[..n - 1]) + text);
      FirstOnWire(reqs, n, text);
    }
  }

  lemma NothingOnWire(text: string)
    ensures Wire([]) + text == text
  {
  }

  lemma AllButFirst(info: string -> HeaderInfo, max: nat, reqs: seq<Request>)
    requires AllWellFormed(info, max, reqs) && reqs != []
    ensures WellFormed(info, max, reqs[0]) && AllWellFormed(info, max, reqs[1..])
  {
  }

  lemma FirstOnWire(reqs: seq<Request>, n: nat, text: string)
    requires 0 < n <= |reqs|
    ensures reqs[..n] == [reqs[0]] + reqs[1..][..n - 1]
    ensures Wire(reqs[..n]) + text == reqs[0].header + reqs[0].body + (Wire(reqs[1..][..n - 1]) + text)
  {
    assert reqs[..n][1..] == reqs[1..][..n - 1];
  }

  /** What follows n requests on a stream that starts a sequence of requests. */
  lemma PrefixAfter(reqs: seq<Request>, tail: string, n: nat, text: string, received: string, more: string)
    requires n <= |reqs| && received == Wire(reqs[..n]) + text && received + more <= Wire(reqs) + tail
    ensures text <= Wire(reqs[n..]) + tail
  {
    WireAppend(reqs[..n], reqs[n..]);
    assert reqs == reqs[..n] + reqs[n..];
    Assoc(Wire(reqs[..n]), Wire(reqs[n..]), tail);
    PrefixCancels(Wire(reqs[..n]), text, more, Wire(reqs[n..]) + tail);
  }

  lemma PrefixCancels(a: string, text: string, more: string, b: string)
    requires a + text + more <= a + b
    ensures text <= b
  {
    assert forall i | 0 <= i < |text| :: text[i] == (a + text + more)[|a| + i] == (a + b)[|a| + i] == b[i];
  }

  lemma CutTwice(text: string, i: nat, j: nat)
    requires i <= j <= |text|
    ensures text[..i] + text[i..j] + text[j..] == text
  {
  }

  lemma PartOf(s: string, n: nat, i: nat, j: nat)
    requires i <= j <= n <= |s|
    ensures s[..n][i..j] == s[i..j]
  {
  }

  lemma TrimmedIs(text: string)
    ensures TrimLeft(text) == text[|text| - |TrimLeft(text)|..]
  {
    TrimLeftIs(text);
  }

  lemma NoWhiteSpace(text: string)
    requires text != "" && !IsSpace(text[0])
    ensures TrimLeft(text) == text
  {
  }

  /** A body of the announced length is the body that was sent. */
  lemma NextIsAnswered(reqs: seq<Request>, tail: string, n: nat, r: Request, text: string, received: string,
                       more: string)
    requires n < |reqs|
    requires r.header == reqs[n].header && |r.body| == |reqs[n].body|
    requires received == Wire(reqs[..n]) + (r.header + r.body + text) && received + more <= Wire(reqs) + tail
    ensures r == reqs[n] && reqs[..n + 1] == reqs[..n] + [r]
    ensures Wire(reqs[..n + 1]) == Wire(reqs[..n]) + r.header + r.body
    ensures text <= Wire(reqs[n + 1..]) + tail
  {
    hide *;
    PrefixAfter(reqs, tail, n, r.header + r.body + text, received, more);
    WireHead(reqs, n);
    Assoc(r.header + reqs[n].body, Wire(reqs[n + 1..]), tail);
    SamePieces(r.header, r.body, text, reqs[n].body, Wire(reqs[n + 1..]) + tail);
    WireSnoc(reqs[..n], r);
    assert reqs[..n + 1] == reqs[..n] + [r];
  }

  /** A blank buffer holds nothing of the next request. */
  lemma NothingUpcoming(info: string -> HeaderInfo, max: nat, reqs: seq<Request>, tail: string, text: string)
    requires AllWellFormed(info, max, reqs) && DeadEnd(info, max, tail)
    requires text <= Wire(reqs) + tail && Trim(text) == ""
    ensures text == "" && (reqs != [] ==> 0 < |reqs[0].header|)
  {
    assert reqs != [] ==> WellFormed(info, max, reqs[0]);
    hide Trim, Wire, AllWellFormed, IsEarliestEnd;
    if text != "" {
      BlankIsSpace(text);
      FirstOfNext(reqs, tail, text);
      assert false;
    }
  }

  lemma AllFrom(info: string -> HeaderInfo, max: nat, reqs: seq<Request>, n: nat)
    requires AllWellFormed(info, max, reqs) && n <= |reqs|
    ensures AllWellFormed(info, max, reqs[n..])
  {
  }

  lemma WireHead(reqs: seq<Request>, n: nat)
    requires n < |reqs|
    ensures Wire(reqs[n..]) == reqs[n].header + reqs[n].body + Wire(reqs[n + 1..])
  {
    assert reqs[n..][1..] == reqs[n + 1..];
  }

  lemma FirstOfNext(reqs: seq<Request>, tail: string, text: string)
    requires reqs != [] ==> reqs[0].header != "" && !IsSpace(reqs[0].header[0])
    requires tail != "" ==> !IsSpace(tail[0])
    requires text <= Wire(reqs) + tail && text != ""
    ensures !IsSpace(text[0])
  {
    if reqs == [] {
      assert Wire(reqs) + tail == tail;
    } else {
      assert Wire(reqs) + tail == reqs[0].header + (reqs[0].body + Wire(reqs[1..]) + tail);
    }
  }

  lemma SamePieces(header: string, body: string, text: string, body': string, rest: string)
    requires |body| == |body'| && header + body + text <= header + body' + rest
    ensures body == body' && text <= rest
  {
    var a, b := header + body + text, header + body' + rest;
    assert forall i | 0 <= i < |body| :: body[i] == a[|header| + i] == b[|header| + i] == body'[i];
    assert forall i | 0 <= i < |text| :: text[i] == a[|header| + |body| + i] == b[|header| + |body| + i] == rest[i];
  }

  /** The buffer starts with the header of request n. */
  ghost predicate HeaderAtHand(info: string -> HeaderInfo, reqs: seq<Request>, n: nat, text: string, len: int) {
    && n < |reqs| && len == |reqs[n].header| && 0 < len <= |text| && text[..len] == reqs[n].header
    && TrimLeft(text) == text && info(reqs[n].header) == Info(|reqs[n].body|, false)
  }

  /** On a faultless run, the text of the header buffer decides as it should. */
  lemma HeaderDecides(info: string -> HeaderInfo, max: nat, reqs: seq<Request>, tail: string, n: nat, text: string,
                      received: string, more: string)
    requires AllWellFormed(info, max, reqs) && 0 < max && n <= |reqs|
    requires received == Wire(reqs[..n]) + text && received + more <= Wire(reqs) + tail
    ensures n == |reqs| ==> text <= tail
    ensures n < |reqs| ==> Length(text) >= 0
    ensures n < |reqs| && Length(text) == 0 ==> |text| < max && |text| < |reqs[n].header|
    ensures n < |reqs| && Length(text) > 0 ==> HeaderAtHand(info, reqs, n, text, Length(text))
  {
    PrefixAfter(reqs, tail, n, text, received, more);
    var rest := reqs[n..];
    assert AllWellFormed(info, max, rest);
    HeaderView(info, max, rest, tail, text);
    if n < |reqs| {
      assert rest[0] == reqs[n] && WellFormed(info, max, reqs[n]);
      if |text| >= |reqs[n].header| {
        assert text[0] == text[..|reqs[n].header|][0];
        NoWhiteSpace(text);
      }
    }
  }

  lemma BlankIsSpace(text: string)
    requires Trim(text) == "" && text != ""
    ensures IsSpace(text[0])
  {
    var t := TrimLeft(text);
    TrimLeftIs(text);
    TrimRightIs(t);
    hide TrimLeft, TrimRight, IsSpace;
    assert t[0..] == t;
    assert text == text[..|text| - |t|] + t;
    assert text[0] in text;
  }

  lemma Extend(before: string, current: string, body: string, got: string)
    ensures before + (current + body + "") + got == before + (current + (body + got) + "")
  {
  }

  lemma WireSnoc(reqs: seq<Request>, r: Request)
    ensures Wire(reqs + [r]) == Wire(reqs) + r.header + r.body
  {
    WireAppend(reqs, [r]);
    assert Wire([r]) == r.header + r.body + Wire([]);
  }

  /** A stream of that length ends inside the body of request n. */
  ghost predicate CutInBody(reqs: seq<Request>, n: nat, length: nat)
    requires n < |reqs|
  {
    var start := |Wire(reqs[..n])| + |reqs[n].header|;
    start <= length < start + |reqs[n].body|
  }

  lemma {:induction false} WireGrows(reqs: seq<Request>, n: nat, m: nat)
    requires n < m <= |reqs|
    ensures |Wire(reqs[..n])| + |reqs[n].header| + |reqs[n].body| <= |Wire(reqs[..m])|
    decreases m
  {
    WireSnoc(reqs[..m - 1], reqs[m - 1]);
    assert reqs[..m] == reqs[..m - 1] + [reqs[m - 1]];
    if n < m - 1 {
      WireGrows(reqs, n, m - 1);
    }
  }

  /** A stream that ends inside the header of request n, or behind the requests, ends inside
      no body. */
  lemma NoCut(reqs: seq<Request>, n: nat, rest: nat, k: nat)
    requires n <= |reqs| && k < |reqs| && (n < |reqs| ==> rest < |reqs[n].header|)
    ensures !CutInBody(reqs, k, |Wire(reqs[..n])| + rest)
  {
    hide Wire;
    if k < n {
      WireGrows(reqs, k, n);
    } else if n < k {
      WireGrows(reqs, n, k);
    }
  }

  lemma NothingToTrim()
    ensures Trim("") == ""
  {
  }

  /** What the reference makes of a stream that ends inside a body. */
  lemma SplitOfCut(info: string -> HeaderInfo, max: nat, reqs: seq<Request>, tail: string, n: nat, stream: string)
    requires AllWellFormed(info, max, reqs) && DeadEnd(info, max, tail)
    requires n < |reqs| && CutInBody(reqs, n, |stream|) && stream <= Wire(reqs) + tail
    ensures SplitStream(info, stream) == reqs[..n]
  {
    var text := stream[|Wire(reqs[..n])|..];
    hide SplitStream, Wire, AllWellFormed, DeadEnd;
    WireAppend(reqs[..n], reqs[n..]);
    assert reqs == reqs[..n] + reqs[n..];
    Assoc(Wire(reqs[..n]), Wire(reqs[n..]), tail);
    StartOf(Wire(reqs[..n]), Wire(reqs[n..]) + tail, stream);
    PrefixAfter(reqs, tail, n, text, stream, "");
    SplitOfWire(info, max, reqs, tail, n, text);
  }

  lemma StartOf(a: string, b: string, s: string)
    requires |a| <= |s| && s <= a + b
    ensures s == a + s[|a|..] && s + "" == s
  {
  }

  /** The request with that part of its body which came before the end of the stream. */
  ghost function CutRequest(reqs: seq<Request>, n: nat, stream: string): Request
    requires n < |reqs| && CutInBody(reqs, n, |stream|)
  {
    Request(reqs[n].header, stream[|Wire(reqs[..n])| + |reqs[n].header|..])
  }

  lemma CutRequestIs(reqs: seq<Request>, n: nat, stream: string, body: string)
    requires n < |reqs| && stream == Wire(reqs[..n]) + (reqs[n].header + body) && |body| < |reqs[n].body|
    ensures CutInBody(reqs, n, |stream|) && CutRequest(reqs, n, stream) == Request(reqs[n].header, body)
  {
  }

  /** Of a request with the body "ab", only "a" has come. */
  lemma CutHere()
    ensures var reqs := [Request("P\n\n", "ab")];
            CutInBody(reqs, 0, 4) && CutRequest(reqs, 0, "P\n\na") == Request("P\n\n", "a")
  {
    var reqs := [Request("P\n\n", "ab")];
    assert reqs[..0] == [] && Wire(reqs[..0]) == "";
    CutRequestIs(reqs, 0, "P\n\na", "a");
  }

  function AnswerOf(r: Result): Answer {
    if r.Thrown? then Raised(r.exception) else More(r == Incomplete)
  }

  // ----- the state machine

  class Server {
    const info: string -> HeaderInfo
    const conn: Conn
    const header: TextBuffer
    var body: TextBuffer
    var state: State
    var newRequest: bool
    var contentLength: nat
    var multipart: bool

    /** The requests that were answered: the header as parsed and the body then held. */
    ghost var dispatched: seq<Request>
    /** The header of the request in work, and everything received before it. */
    ghost var current: string
    ghost var before: string

    ghost predicate Valid()
      reads `body, `state, `contentLength, `current, `before, conn, header, header.data, body, body.data
    {
      && header.Valid() && body.Valid()
      && header != body && header.data != body.data
      && (state != InHeader ==> body.data.Length == contentLength)
      && (state == InBody && body.len < contentLength ==> header.len == 0)
      && conn.received == before + Held()
    }

    /** What is held of the stream: the request in work and the header buffer. */
    ghost function Held(): string
      reads `body, `state, `current, header, header.data, body, body.data
      requires header.Valid() && body.Valid()
    {
      if state == InHeader then header.Text() else current + body.Text() + header.Text()
    }

    constructor (info: string -> HeaderInfo, conn: Conn, maxHeaderLength: nat)
      requires conn.received == ""
      ensures Valid() && fresh(header) && fresh(header.data) && fresh(body) && fresh(body.data)
      ensures this.info == info && this.conn == conn && header.data.Length == maxHeaderLength
      ensures state == InHeader && header.Text() == "" && dispatched == [] && before == ""
      ensures forall reqs, tail | 0 < maxHeaderLength && AllWellFormed(info, maxHeaderLength, reqs)
                                  && DeadEnd(info, maxHeaderLength, tail) && conn.Stream() <= Wire(reqs) + tail ::
                Framed(reqs, tail)
    {
      this.info, this.conn := info, conn;
      header := new TextBuffer(maxHeaderLength);
      body := new TextBuffer(0);
      state, newRequest, contentLength, multipart := InHeader, true, 0, false;
      dispatched, current, before := [], "", "";
    }

    /** Reads until the header buffer holds a header. `text` is what it held last. */
    method FillHeader() returns (r: Result, requestOffset: int, ghost text: string)
      requires Valid() && state == InHeader
      modifies this`before, conn, header, header.data
      ensures Valid() && conn.Stream() == old(conn.Stream())
      ensures requestOffset == Length(text) && conn.received == old(before) + text && |text| <= header.data.Length
      ensures match r
              case Complete => 0 < requestOffset <= |text|
              case Incomplete => requestOffset == 0 && |text| < header.data.Length
              case Error => requestOffset == -1
              case Thrown(e) => e == HeaderTooLarge && requestOffset == 0 && |text| == header.data.Length
      ensures header.Text() == if r == Error then "" else text
      ensures before == old(before) + if r == Error then text else ""
      ensures Size(conn.script) + header.len <= old(Size(conn.script) + header.len)
      ensures old(Ends(conn.script)) ==> Ends(conn.script) && (r == Incomplete ==> Pending(conn.script) == "")
    {
      hide Length, Pending, Straight, Ends, Size, EverOpen, Blocking, HasBlankLine, IsEarliestEnd, HasControl,
           conn.Stream;
      text := header.Text();
      while true
        invariant Valid() && conn.Stream() == old(conn.Stream())
        invariant text == header.Text() && before == old(before)
        invariant Size(conn.script) + header.len <= old(Size(conn.script) + header.len)
        invariant old(Ends(conn.script)) ==> Ends(conn.script)
        decreases Size(conn.script)
      {
        requestOffset := GetLength(header.data[..header.len]);
        if requestOffset == -1 {
          header.Clear();
          before := before + text;
          return Error, requestOffset, text;
        } else if requestOffset > 0 {
          break;
        }
        var free := header.GetFree();
        if free == 0 {
          return Thrown(HeaderTooLarge), requestOffset, text;
        }
        var len := header.ReadFrom(conn, free);
        if len <= 0 {
          return Incomplete, requestOffset, text;
        }
        text := header.Text();
      }
      r := Complete;
    }

    /** Drops the white space before a request. */
    method TrimHeader(ghost reqs: seq<Request>, ghost tail: string) returns (ofs: nat)
      requires Valid() && state == InHeader
      modifies this`before, header, header.data
      ensures Valid()
      ensures ofs == 0 && old(Faultless(reqs, tail)) ==> Faultless(reqs, tail)
      ensures var text := old(header.Text());
              && ofs == |text| - |TrimLeft(text)|
              && header.Text() == text[ofs..] && header.len == |text| - ofs && |text| == old(header.len)
              && before == old(before) + text[..ofs] && header.Text() == TrimLeft(text)
    {
      hide TrimLeft, AllWellFormed, DeadEnd, Wire, Pending;
      ghost var text := header.Text();
      assert header.data[..header.len] == text;
      var cleaned := TrimLeft(header.data[..header.len]);
      TrimmedIs(text);
      ofs := header.len - |cleaned|;
      header.Crop(ofs);
      CutBehind(before, text, ofs);
      before := before + text[..ofs];
    }

    /** Takes the header off the buffer and, with it, what is there of the body. */
    method TakeHeader(requestOffset: nat) returns (r: Result)
      requires Valid() && state == InHeader && 0 < requestOffset <= header.len && body.data.Length == 0
      modifies this`body, this`state, this`contentLength, this`multipart, this`current, header, header.data
      ensures Valid()
      ensures body == old(body) || (fresh(body) && fresh(body.data))
      ensures var text := old(header.Text());
              match info(text[..requestOffset])
              case Refused => r == Thrown(HeaderRefused) && state == InHeader && header.Text() == text
              case Info(len, mp) =>
                && r == Complete
                && current == text[..requestOffset]
                && contentLength == len && multipart == mp
                && state == (if len > 0 then InBody else InDispatch)
                && body.len == (var more := |text| - requestOffset; if len > more then more else len)
                && header.len == |text| - requestOffset - body.len
    {
      ghost var text := header.Text();
      assert header.data[..requestOffset] == text[..requestOffset];
      match info(header.data[..requestOffset])
      case Refused =>
        r := Thrown(HeaderRefused);
      case Info(len, mp) =>
        contentLength, multipart := len, mp;
        if len > 0 {
          TakeBody(requestOffset, len);
        } else {
          header.Crop(requestOffset);
          current, state := text[..requestOffset], InDispatch;
          assert current + body.Text() + header.Text() == text;
        }
        r := Complete;
    }

    /** The request has a body; some of it, or all, may be in the header buffer. */
    method TakeBody(requestOffset: nat, len: nat)
      requires Valid() && state == InHeader && requestOffset <= header.len && 0 < len == contentLength
      modifies this`body, this`state, this`current, header, header.data
      ensures Valid() && state == InBody
      ensures fresh(body) && fresh(body.data)
      ensures current == old(header.Text())[..requestOffset]
      ensures body.len == var more := old(header.len) - requestOffset; if len > more then more else len
      ensures header.len == old(header.len) - requestOffset - body.len
    {
      ghost var text := header.Text();
      ghost var end := if header.len - requestOffset >= len then requestOffset + len else header.len;
      CutTwice(text, requestOffset, end);
      PartOf(header.data[..], header.len, requestOffset, end);
      assert header.data[requestOffset..end] == header.data[..][requestOffset..end];
      assert text[|text|..] == "" && text[requestOffset..requestOffset] == "";
      var b := new TextBuffer(len);
      if header.len != requestOffset {
        if header.len - requestOffset >= len {
          // The whole body is there, and perhaps the next request.
          b.Copy(header.data[requestOffset..requestOffset + len]);
          header.Crop(requestOffset + len);
        } else {
          // The body is only partial.
          b.Copy(header.data[requestOffset..header.len]);
          header.Clear();
        }
      } else {
        header.Clear();
      }
      body, state, current := b, InBody, text[..requestOffset];
      assert body.Text() == text[requestOffset..end] && header.Text() == text[end..];
    }

    /** The stream starts the given requests and goes on with a dead end, if at all, and those
        that were answered are the first ones. */
    ghost predicate Faultless(reqs: seq<Request>, tail: string)
      reads `dispatched, `before, conn
    {
      var n := |dispatched|;
      && 0 < header.data.Length && AllWellFormed(info, header.data.Length, reqs)
      && DeadEnd(info, header.data.Length, tail) && conn.Stream() <= Wire(reqs) + tail
      && n <= |reqs| && dispatched == reqs[..n] && before == Wire(dispatched)
    }

    /** Likewise, and the request in work is the next one. */
    ghost predicate Framed(reqs: seq<Request>, tail: string)
      reads this, conn, header, body
    {
      && Faultless(reqs, tail)
      && (state != InHeader ==> InWork(reqs))
      && (state == InDispatch ==> body.len == contentLength)
    }

    ghost predicate InWork(reqs: seq<Request>)
      reads `dispatched, `current, `contentLength, `multipart
    {
      var n := |dispatched|;
      n < |reqs| && current == reqs[n].header && contentLength == |reqs[n].body| && !multipart
    }

    /** All requests that were received completely are answered. */
    ghost predicate CaughtUp(reqs: seq<Request>)
      reads this, header, body
    {
      var n := |dispatched|;
      || n >= |reqs|
      || (state == InHeader && header.len < |reqs[n].header|)
      || (state == InBody && body.len < contentLength)
    }

    /** The peer has closed the stream inside the body of the request in work. */
    ghost predicate CutShort(reqs: seq<Request>, tail: string)
      reads this, conn, header, body
    {
      && Faultless(reqs, tail) && state == InDispatch && InWork(reqs) && body.len < contentLength && header.len == 0
      && Pending(conn.script) == "" && !EverOpen(conn.script)
    }

    ghost predicate InOrder(reqs: seq<Request>, tail: string)
      reads this, conn, header, body
    {
      Framed(reqs, tail) || CutShort(reqs, tail)
    }

    /** The last answer was to a request of which only a part had come. */
    ghost predicate Truncated(reqs: seq<Request>, tail: string)
      reads `state, `dispatched, conn, header
    {
      var n := |dispatched| - 1;
      && 0 < header.data.Length && AllWellFormed(info, header.data.Length, reqs)
      && DeadEnd(info, header.data.Length, tail) && conn.Stream() <= Wire(reqs) + tail
      && 0 <= n < |reqs| && state == InHeader && header.len == 0
      && Pending(conn.script) == "" && !EverOpen(conn.script)
      && CutInBody(reqs, n, |conn.Stream()|) && dispatched == reqs[..n] + [CutRequest(reqs, n, conn.Stream())]
    }

    /** What was received behind the requests, if all of them were answered. */
    ghost predicate Behind(reqs: seq<Request>, tail: string, text: string)
      reads `dispatched, conn
    {
      dispatched == reqs && conn.received == Wire(reqs) + text && text <= tail && |text| <= header.data.Length
    }

    method ReadHeader(ghost reqs: seq<Request>, ghost tail: string) returns (r: Result, ghost text: string)
      requires Valid() && state == InHeader
      modifies this`body, this`state, this`newRequest, this`contentLength, this`multipart, this`current, this`before
      modifies conn, header, header.data
      ensures Valid() && conn.Stream() == old(conn.Stream())
      ensures body == old(body) || (fresh(body) && fresh(body.data))
      ensures r == Complete <==> state != InHeader
      ensures r == Complete ==> Size(conn.script) + header.len < old(Size(conn.script) + header.len)
      ensures old(Framed(reqs, tail) && |dispatched| < |reqs|) ==>
                Framed(reqs, tail) && (r == Complete || (r == Incomplete && CaughtUp(reqs)))
      ensures old(Framed(reqs, tail) && |dispatched| == |reqs|) ==>
                && r != Complete && (r == Incomplete ==> Framed(reqs, tail))
                && Behind(reqs, tail, text) && AnswerOf(r) == Verdict(header.data.Length, text)
      ensures old(Ends(conn.script)) ==> Ends(conn.script) && (r == Incomplete ==> Pending(conn.script) == "")
    {
      hide *;
      var requestOffset: int;
      r, requestOffset, text := AwaitHeader(reqs, tail);
      if r == Complete {
        AnswersOf(text, requestOffset);
        r := AcceptHeader(reqs, tail, requestOffset);
      }
    }

    /** The part of `ReadHeader` up to the point where a header was found. */
    method AwaitHeader(ghost reqs: seq<Request>, ghost tail: string)
      returns (r: Result, requestOffset: int, ghost text: string)
      requires Valid() && state == InHeader
      modifies this`body, this`newRequest, this`contentLength, this`multipart, this`before
      modifies conn, header, header.data
      ensures Valid() && conn.Stream() == old(conn.Stream())
      ensures body.data.Length == 0 && fresh(body) && fresh(body.data)
      ensures r == Complete ==>
                0 < requestOffset <= header.len && header.Text() == text && requestOffset == Length(text)
      ensures Size(conn.script) + header.len <= old(Size(conn.script) + header.len)
      ensures old(Ends(conn.script)) ==> Ends(conn.script) && (r == Incomplete ==> Pending(conn.script) == "")
      ensures old(Framed(reqs, tail) && |dispatched| < |reqs|) ==>
                && Framed(reqs, tail)
                && (r == Complete || (r == Incomplete && CaughtUp(reqs)))
                && (r == Complete ==>
                      Faultless(reqs, tail) && HeaderAtHand(info, reqs, |dispatched|, header.Text(), requestOffset))
      ensures old(Framed(reqs, tail) && |dispatched| == |reqs|) ==>
                && Behind(reqs, tail, text)
                && (r == Complete || r == Incomplete ==> Framed(reqs, tail))
                && (r == Complete ==> DeadHeader(text, requestOffset))
                && (r != Complete ==> AnswerOf(r) == Verdict(header.data.Length, text))
    {
      hide Length, Pending, Straight, Ends, Size, EverOpen, Blocking, Wire, AllWellFormed, HeaderAtHand, DeadEnd,
           DeadHeader;
      StartRequest();
      r, requestOffset, text := FillHeader();
      if old(Framed(reqs, tail)) {
        HeaderDecides(info, header.data.Length, reqs, tail, |dispatched|, text, conn.received, Pending(conn.script));
        EndOfWire(reqs, tail);
        if |dispatched| == |reqs| && r == Complete {
          HeaderIsDead(tail, text);
        }
      }
    }

    /** A header at the start of a text, which is refused. */
    ghost predicate DeadHeader(text: string, len: int) {
      0 < len <= |text| && TrimLeft(text) == text && info(text[..len]) == Refused
    }

    lemma HeaderIsDead(tail: string, text: string)
      requires DeadEnd(info, header.data.Length, tail) && text <= tail && |text| <= header.data.Length
      requires Length(text) > 0
      ensures DeadHeader(text, Length(text))
    {
      assert text == tail[..|text|];
      hide Length;
      assert Length(text) <= |text|;
      NoWhiteSpace(text);
    }

    lemma AnswersOf(text: string, len: int)
      ensures DeadHeader(text, len) ==> TrimLeft(text) == text && 0 < len <= |text| && info(text[..len]) == Refused
      ensures AnswerOf(Thrown(HeaderRefused)) == Raised(HeaderRefused)
      ensures Length(text) > 0 ==> Verdict(header.data.Length, text) == Raised(HeaderRefused)
    {
    }

    /** The part of `ReadHeader` that follows once a header was found. */
    method AcceptHeader(ghost reqs: seq<Request>, ghost tail: string, requestOffset: nat) returns (r: Result)
      requires Valid() && state == InHeader && 0 < requestOffset <= header.len && body.data.Length == 0
      modifies this`body, this`state, this`newRequest, this`contentLength, this`multipart, this`current, this`before
      modifies header, header.data
      ensures Valid()
      ensures body == old(body) || (fresh(body) && fresh(body.data))
      ensures r == Complete || r.Thrown?
      ensures r == Complete <==> state != InHeader
      ensures r == Complete ==> header.len < old(header.len)
      ensures old(Faultless(reqs, tail) && HeaderAtHand(info, reqs, |dispatched|, header.Text(), requestOffset)) ==>
                r == Complete && Framed(reqs, tail)
      ensures var cleaned := TrimLeft(old(header.Text()));
              var len := requestOffset - (old(header.len) - |cleaned|);
              r == if len <= 0 then Thrown(RequestMalformed)
                   else if info(cleaned[..len]) == Refused then Thrown(HeaderRefused) else Complete
    {
      hide Faultless, TrimLeft, Valid, Held;
      newRequest := true;
      var ofs := TrimHeader(reqs, tail);
      if requestOffset <= ofs {
        r := Thrown(RequestMalformed);
      } else {
        r := TakeHeader(requestOffset - ofs);
      }
    }

    /** Cleans up variables of the previous request. */
    method StartRequest()
      requires Valid() && state == InHeader
      modifies this`body, this`newRequest, this`contentLength, this`multipart
      ensures Valid() && body.data.Length == 0 && fresh(body) && fresh(body.data)
    {
      if newRequest {
        contentLength, multipart, newRequest := 0, false, false;
      }
      body := new TextBuffer(0);
    }

    /** Reads the rest of the body. A stream that ends early ends the body, too. */
    method ReadBody(ghost reqs: seq<Request>, ghost tail: string) returns (r: Result)
      requires Valid() && state == InBody
      modifies this`state, conn, body, body.data
      ensures Valid() && conn.Stream() == old(conn.Stream())
      ensures r == Complete || r == Incomplete
      ensures state == if r == Complete then InDispatch else InBody
      ensures Size(conn.script) <= old(Size(conn.script)) && header.len == old(header.len)
      ensures old(Framed(reqs, tail)) && r == Complete ==> InOrder(reqs, tail)
      ensures old(Framed(reqs, tail)) && r == Incomplete ==> Framed(reqs, tail) && CaughtUp(reqs)
      ensures old(Ends(conn.script)) ==> r == Complete && Ends(conn.script)
    {
      hide Pending, Straight, Ends, Size, EverOpen, Blocking, Wire, AllWellFormed, DeadEnd, conn.Stream;
      if !multipart {
        while body.GetFree() > 0
          invariant Valid() && conn.Stream() == old(conn.Stream()) && state == InBody
          invariant Size(conn.script) <= old(Size(conn.script))
          invariant old(Ends(conn.script)) ==> Ends(conn.script)
          decreases body.GetFree()
        {
          ghost var held := body.Text();
          var len := body.ReadFrom(conn, body.GetFree());
          Extend(before, current, held, body.Text()[|held|..]);
          assert body.Text() == held + body.Text()[|held|..];
          if len == -1 {
            return Incomplete;
          } else if len == 0 {
            break;
          }
        }
      }
      state := InDispatch;
      r := Complete;
    }

    /** Answers the request in work; tells whether another one may be in the buffer. */
    method Respond(ghost reqs: seq<Request>, ghost tail: string) returns (upcoming: bool)
      requires Valid() && state == InDispatch
      modifies this`state, this`dispatched, this`before
      ensures Valid() && state == InHeader
      ensures dispatched == old(dispatched) + [Request(current, body.Text())]
      ensures upcoming <==> Trim(header.Text()) != ""
      ensures old(Framed(reqs, tail)) ==> Framed(reqs, tail)
      ensures old(Framed(reqs, tail)) && !upcoming ==> CaughtUp(reqs) && header.Text() == ""
      ensures old(CutShort(reqs, tail)) ==> !upcoming && Truncated(reqs, tail)
    {
      hide Pending, EverOpen, Wire, AllWellFormed, DeadEnd, Trim, CutInBody, CutRequest;
      if CutShort(reqs, tail) {
        assert header.Text() == "";
        NothingToTrim();
        CutRequestIs(reqs, |dispatched|, conn.Stream(), body.Text());
      }
      if Framed(reqs, tail) {
        NextIsAnswered(reqs, tail, |dispatched|, Request(current, body.Text()), header.Text(), conn.received,
                       Pending(conn.script));
        if Trim(header.Text()) == "" {
          AllFrom(info, header.data.Length, reqs, |dispatched| + 1);
          NothingUpcoming(info, header.data.Length, reqs[|dispatched| + 1..], tail, header.Text());
        }
      }
      Regroup(before, current, body.Text(), header.Text());
      dispatched := dispatched + [Request(current, body.Text())];
      before := before + current + body.Text();
      state := InHeader;
      upcoming := Trim(header.data[..header.len]) != "";
      assert header.data[..header.len] == header.Text();
    }

    /** Runs the state machine until it needs more data or has nothing left to do.
        Whatever the segments in which the stream arrives, on a faultless run the
        answered requests are those of the reference split of what was received, and
        if the peer has closed the stream inside a body, what came of that request.
        Once all requests were answered, what the header buffer holds of the bytes behind
        them decides, unless nothing of them was there when the last request was answered. */
    method Process(ghost reqs: seq<Request>, ghost tail: string) returns (r: Answer)
      requires Valid()
      modifies this, conn, header, header.data, body, body.data
      ensures Valid() && conn.Stream() == old(conn.Stream())
      ensures body == old(body) || (fresh(body) && fresh(body.data))
      ensures old(dispatched) <= dispatched
      ensures old(InOrder(reqs, tail)) && Truncated(reqs, tail) ==>
                && r == More(false)
                && dispatched == SplitStream(info, conn.received) + [CutRequest(reqs, |dispatched| - 1, conn.Stream())]
      ensures old(InOrder(reqs, tail)) && !Truncated(reqs, tail) ==>
                dispatched <= reqs && dispatched == SplitStream(info, conn.received)
      ensures old(InOrder(reqs, tail)) && !Truncated(reqs, tail) && |dispatched| < |reqs| ==>
                && r.More? && Framed(reqs, tail) && CaughtUp(reqs)
                && (!r.required ==> state == InHeader && |dispatched| > |old(dispatched)| && header.Text() == "")
      ensures old(InOrder(reqs, tail)) && !Truncated(reqs, tail) && |dispatched| == |reqs| ==>
                exists text ::
                  && Behind(reqs, tail, text) && (r == More(true) ==> Framed(reqs, tail))
                  && (|| r == Verdict(header.data.Length, text)
                      || (text == "" && |dispatched| > |old(dispatched)| && r == More(false)))
      ensures old(InOrder(reqs, tail) && Ends(conn.script)) ==>
                && Ends(conn.script) && state == InHeader
                && (r == More(true) ==> Pending(conn.script) == "")
      decreases Size(conn.script) + header.len, match state case InHeader => 0 case InDispatch => 1 case InBody => 2
    {
      hide *;
      ghost var inOrder := InOrder(reqs, tail);
      OrderIs(reqs, tail);
      match state
      case InHeader =>
        var res: Result;
        ghost var text: string;
        res, text := ReadHeader(reqs, tail);
        OrderIs(reqs, tail);
        if res == Complete {
          r := Process(reqs, tail);
        } else {
          if inOrder {
            if |dispatched| < |reqs| {
              AllAnswered(reqs, tail);
            } else {
              AllBehind(reqs, tail, text);
            }
          }
          r := if res.Thrown? then Raised(res.exception) else More(res == Incomplete);
          AnswerIs(res);
        }
      case InBody =>
        var res := ReadBody(reqs, tail);
        if res == Complete {
          r := Process(reqs, tail);
        } else {
          if inOrder {
            AllAnswered(reqs, tail);
          }
          r := More(true);
        }
      case InDispatch =>
        var upcoming := Respond(reqs, tail);
        OrderIs(reqs, tail);
        if upcoming {
          r := Process(reqs, tail);
        } else {
          if Framed(reqs, tail) && CaughtUp(reqs) {
            AllAnswered(reqs, tail);
          }
          if Truncated(reqs, tail) {
            CutAnswered(reqs, tail);
          }
          r := More(false);
        }
    }

    lemma AnswerIs(res: Result)
      ensures AnswerOf(res) == if res.Thrown? then Raised(res.exception) else More(res == Incomplete)
    {
    }

    lemma OrderIs(reqs: seq<Request>, tail: string)
      ensures InOrder(reqs, tail) <==> Framed(reqs, tail) || CutShort(reqs, tail)
      ensures CutShort(reqs, tail) ==> state == InDispatch
      ensures InOrder(reqs, tail) ==>
                && AllWellFormed(info, header.data.Length, reqs) && DeadEnd(info, header.data.Length, tail)
                && |dispatched| <= |reqs| && (state == InDispatch ==> |dispatched| < |reqs|)
    {
    }

    lemma AllAnswered(reqs: seq<Request>, tail: string)
      requires Valid() && Framed(reqs, tail) && CaughtUp(reqs)
      ensures dispatched <= reqs && dispatched == SplitStream(info, conn.received) && !Truncated(reqs, tail)
      ensures |dispatched| == |reqs| ==> state == InHeader && Behind(reqs, tail, header.Text())
    {
      var n, text := |dispatched|, Held();
      hide SplitStream, Wire, AllWellFormed, Truncated, Pending, DeadEnd;
      PrefixAfter(reqs, tail, n, text, conn.received, Pending(conn.script));
      EndOfWire(reqs, tail);
      SplitOfWire(info, header.data.Length, reqs, tail, n, text);
      NotTruncated(reqs, tail);
    }

    /** Likewise when the bytes behind the requests were looked at. */
    lemma AllBehind(reqs: seq<Request>, tail: string, text: string)
      requires Behind(reqs, tail, text) && state == InHeader
      requires AllWellFormed(info, header.data.Length, reqs) && DeadEnd(info, header.data.Length, tail)
      ensures dispatched <= reqs && dispatched == SplitStream(info, conn.received) && !Truncated(reqs, tail)
    {
      EndOfWire(reqs, tail);
      hide SplitStream, Wire, AllWellFormed, Truncated, DeadEnd;
      SplitOfWire(info, header.data.Length, reqs, tail, |reqs|, text);
      WholeIsNotCut(reqs, tail);
    }

    lemma EndOfWire(reqs: seq<Request>, tail: string)
      ensures reqs[..|reqs|] == reqs && reqs[|reqs|..] == [] && Wire([]) + tail == tail
    {
    }

    lemma WholeIsNotCut(reqs: seq<Request>, tail: string)
      requires dispatched == reqs
      ensures !Truncated(reqs, tail)
    {
      hide Wire, AllWellFormed, Pending, EverOpen, DeadEnd;
    }

    lemma NotTruncated(reqs: seq<Request>, tail: string)
      requires Framed(reqs, tail)
      ensures !Truncated(reqs, tail)
    {
      hide Wire, AllWellFormed, Pending, EverOpen, DeadEnd;
    }

    /** What was answered when the peer had closed the stream inside a body. */
    lemma CutAnswered(reqs: seq<Request>, tail: string)
      requires Truncated(reqs, tail)
      ensures CutInBody(reqs, |dispatched| - 1, |conn.Stream()|)
      ensures dispatched ==
              SplitStream(info, conn.received) + [CutRequest(reqs, |dispatched| - 1, conn.Stream())]
      ensures !Framed(reqs, tail)
    {
      hide Wire, AllWellFormed, EverOpen, SplitStream, DeadEnd;
      assert conn.Stream() == conn.received + "" == conn.received;
      SplitOfCut(info, header.data.Length, reqs, tail, |dispatched| - 1, conn.received);
    }

    /** Once everything has come, a truncated request was answered exactly if the stream ends
        inside a body. */
    lemma CutIsAnswered(reqs: seq<Request>, tail: string)
      requires Valid() && state == InHeader && Pending(conn.script) == ""
      requires (Framed(reqs, tail) && CaughtUp(reqs)) || Truncated(reqs, tail)
      ensures Truncated(reqs, tail) <==> exists k :: 0 <= k < |reqs| && CutInBody(reqs, k, |conn.Stream()|)
    {
      if !Truncated(reqs, tail) {
        var n, text := |dispatched|, header.Text();
        PrefixAfter(reqs, tail, n, text, conn.received, "");
        forall k: nat | k < |reqs|
          ensures !CutInBody(reqs, k, |conn.Stream()|)
        {
          NoCut(reqs, n, |text|, k);
        }
      }
    }
  }

  /** A first line that is longer than the buffer. */
  method LongLine() returns (r: Answer)
    ensures r == Raised(HeaderTooLarge)
  {
    var line := "GET /index";
    var script: Script := [Data(line), Closed];
    var conn := new Conn(script);
    var server := new Server(_ => Refused, conn, 8);
    assert script[1..] == [Closed] && Pending(script) == line && Ends(script[1..]) && Ends(script);
    assert !HasBlankLine(line[..8]) && !HasControl(line[..8]);
    TooLarge(server.info, 8, line);
    r := ProcessOnly(server, line);
  }

  /** A tab in a line, and no blank line yet. */
  method TabInLine() returns (r: Answer)
    ensures r == More(false)
  {
    var line := "GET\t/";
    var script: Script := [Data(line), Closed];
    var conn := new Conn(script);
    var server := new Server(_ => Refused, conn, 8);
    assert script[1..] == [Closed] && Pending(script) == line && Ends(script[1..]) && Ends(script);
    assert !HasBlankLine(line) && IsControl(line[3]);
    MalformedHeader(server.info, 8, line, 3);
    r := ProcessOnly(server, line);
  }

  /** A server that has answered nothing, on a stream that is a dead end and is closed behind it. */
  method ProcessOnly(server: Server, line: string) returns (r: Answer)
    requires server.Valid() && server.state == InHeader && server.dispatched == [] && server.before == ""
    requires 0 < server.header.data.Length && DeadEnd(server.info, server.header.data.Length, line)
    requires server.conn.Stream() == line && server.header.Text() == "" && Ends(server.conn.script)
    modifies server, server.conn, server.header, server.header.data, server.body, server.body.data
    ensures exists k: nat :: k <= |line| && k <= server.header.data.Length && (r == More(true) ==> k == |line|)
                             && r == Verdict(server.header.data.Length, line[..k])
  {
    assert server.Framed([], line) by {
      assert Wire([]) + line == line;
    }
    r := server.Process([], line);
    assert server.dispatched == [];
    ghost var text :| server.Behind([], line, text)
      && (r == Verdict(server.header.data.Length, text) || (text == "" && |server.dispatched| > 0 && r == More(false)));
    assert Wire([]) + text == text == line[..|text|];
    assert r == More(true) ==> server.conn.received + "" == server.conn.received;
  }
}
