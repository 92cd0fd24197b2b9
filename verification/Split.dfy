/** Splitting, joining and replacing of src/String.c. A slice of the subject is a
    pair of an offset and a length; the null slice starts an iteration. */
module Split {
  import opened Wrappers
  import opened Slices

  ghost predicate IsSlice(s: string, piece: Slice, text: string) {
    Before(piece, |s|) && Text(s, piece) == text
  }

  // ----- joining

  ghost function Joined(pieces: seq<string>, sep: string): string {
    if pieces == [] then ""
    else if |pieces| == 1 then pieces[0]
    else pieces[0] + sep + Joined(pieces[1..], sep)
  }

  lemma JoinedOne(p: string, sep: string)
    ensures Joined([p], sep) == p
  {
  }

  lemma JoinedCons(p: string, rest: seq<string>, sep: string)
    requires rest != []
    ensures Joined([p] + rest, sep) == p + sep + Joined(rest, sep)
  {
    assert ([p] + rest)[1..] == rest;
  }

  lemma CutAt(s: string, start: nat, end: nat)
    requires start <= end < |s|
    ensures s[start..] == s[start..end] + [s[end]] + s[end + 1..]
  {
  }

  lemma {:induction false} JoinedSnoc(pieces: seq<string>, sep: string, p: string)
    requires pieces != []
    ensures Joined(pieces + [p], sep) == Joined(pieces, sep) + sep + p
  {
    if |pieces| > 1 {
      assert (pieces + [p])[1..] == pieces[1..] + [p];
      JoinedSnoc(pieces[1..], sep, p);
    } else {
      assert (pieces + [p])[1..] == [p];
    }
  }

  /** The text, and the size that was computed for it in advance. */
  method Join(pieces: seq<string>, sep: string) returns (res: string, size: nat)
    ensures res == Joined(pieces, sep) && size == |res|
  {
    var len := 0;
    for i := 0 to |pieces|
      invariant i == 0 ==> len == 0
      invariant i > 0 ==> len == |Joined(pieces[..i], sep)| + (if i < |pieces| then |sep| else 0)
    {
      len := len + |pieces[i]|;
      if i != |pieces| - 1 {
        len := len + |sep|;
      }
      assert pieces[..i + 1] == pieces[..i] + [pieces[i]];
      if i > 0 {
        JoinedSnoc(pieces[..i], sep, pieces[i]);
      }
    }

    res := "";
    for i := 0 to |pieces|
      invariant i == 0 ==> res == ""
      invariant i > 0 ==> res == Joined(pieces[..i], sep) + (if i < |pieces| then sep else "")
    {
      res := res + pieces[i];
      if i != |pieces| - 1 {
        res := res + sep;
      }
      assert pieces[..i + 1] == pieces[..i] + [pieces[i]];
      if i > 0 {
        JoinedSnoc(pieces[..i], sep, pieces[i]);
      }
    }
    assert pieces[..|pieces|] == pieces;
    size := len;
  }

  // ----- splitting at a character

  /** The position of the next separator, or the end of the subject. */
  function EndOf(s: string, c: char, pos: nat): (end: nat)
    requires pos <= |s|
    ensures pos <= end <= |s|
    ensures forall k | pos <= k < end :: s[k] != c
    ensures end < |s| ==> s[end] == c
    decreases |s| - pos
  {
    if pos == |s| || s[pos] == c then pos else EndOf(s, c, pos + 1)
  }

  ghost function CharPiecesFrom(s: string, c: char, start: nat): (ps: seq<string>)
    requires start <= |s|
    ensures ps != []
    decreases |s| - start
  {
    var end := EndOf(s, c, start);
    [s[start..end]] + (if end < |s| then CharPiecesFrom(s, c, end + 1) else [])
  }

  lemma FirstPiece(s: string, c: char, start: nat)
    requires start <= |s|
    ensures var end := EndOf(s, c, start);
            if end < |s| then CharPiecesFrom(s, c, start) == [s[start..end]] + CharPiecesFrom(s, c, end + 1)
            else CharPiecesFrom(s, c, start) == [s[start..]]
  {
    assert s[start..] == s[start..|s|];
  }

  /** The pieces of a subject; the empty subject has none. */
  ghost function CharPieces(s: string, c: char): seq<string> {
    if s == "" then [] else CharPiecesFrom(s, c, 0)
  }

  ghost function Count(s: string, c: char, from: nat): nat
    requires from <= |s|
    decreases |s| - from
  {
    if from == |s| then 0 else (if s[from] == c then 1 else 0) + Count(s, c, from + 1)
  }

  lemma {:induction false} CountToEnd(s: string, c: char, pos: nat)
    requires pos <= |s|
    ensures var end := EndOf(s, c, pos);
            Count(s, c, pos) == if end < |s| then 1 + Count(s, c, end + 1) else 0
    decreases |s| - pos
  {
    if pos < |s| && s[pos] != c {
      CountToEnd(s, c, pos + 1);
    }
  }

  lemma {:induction false} PieceCount(s: string, c: char, start: nat)
    requires start <= |s|
    ensures |CharPiecesFrom(s, c, start)| == 1 + Count(s, c, start)
    decreases |s| - start
  {
    CountToEnd(s, c, start);
    if EndOf(s, c, start) < |s| {
      PieceCount(s, c, EndOf(s, c, start) + 1);
    }
  }

  /** Where the iteration goes on after a slice; the null slice starts it. */
  function After(prev: Option<Slice>, skip: nat): nat {
    if prev.Some? then prev.value.start + prev.value.len + skip else 0
  }

  /** One step of the iteration. At its end the slice stays as it was. */
  method SplitChar(s: string, c: char, prev: Option<Slice>) returns (more: bool, piece: Option<Slice>)
    ensures more == (s != "" && After(prev, 1) <= |s|)
    ensures piece == if more then Some(Slice(After(prev, 1), EndOf(s, c, After(prev, 1)) - After(prev, 1))) else prev
  {
    var offset := After(prev, 1);
    if |s| == 0 || offset > |s| {
      return false, prev;
    }
    for pos := offset to |s| + 1
      invariant forall k | offset <= k < pos :: k < |s| && s[k] != c
      invariant pos <= |s| && EndOf(s, c, offset) == EndOf(s, c, pos)
    {
      if pos == |s| || s[pos] == c {
        return true, Some(Slice(offset, pos - offset));
      }
    }
    more, piece := true, prev;
  }

  /** The number of pieces to make room for. */
  method CountChunks(s: string, c: char) returns (chunks: nat)
    ensures chunks == |CharPieces(s, c)| + (if s == "" then 1 else 0)
  {
    PieceCount(s, c, 0);
    chunks := 1;
    for i := 0 to |s|
      invariant chunks + Count(s, c, i) == 1 + Count(s, c, 0)
    {
      if s[i] == c {
        chunks := chunks + 1;
      }
    }
  }

  /** All pieces, in an array that is allocated before they are known. */
  method SplitAll(s: string, c: char) returns (res: array<Slice>, len: nat)
    ensures fresh(res) && len <= res.Length
    ensures s != "" ==> len == res.Length
    ensures len == |CharPieces(s, c)|
    ensures forall i | 0 <= i < len :: IsSlice(s, res[i], CharPieces(s, c)[i])
  {
    hide *;
    var chunks := CountChunks(s, c);
    res := new Slice[chunks](_ => Slice(0, 0));
    len := 0;
    ghost var all := CharPieces(s, c);
    StartPieces(s, c);
    var more, elem := SplitChar(s, c, None);
    while more
      invariant len <= |all| <= res.Length
      invariant forall i | 0 <= i < len :: IsSlice(s, res[i], all[i])
      invariant if more then s != "" && elem.Some? && RestIs(s, c, all, len, elem.value) else len == |all|
      decreases |all| - len, more
    {
      NextPiece(s, c, all, len, elem.value);
      res[len] := elem.value;
      len := len + 1;
      more, elem := SplitChar(s, c, elem);
    }
  }

  /** The slice is piece number `len`. */
  ghost predicate RestIs(s: string, c: char, all: seq<string>, len: nat, piece: Slice) {
    && len < |all| && piece.start <= |s|
    && piece.len == EndOf(s, c, piece.start) - piece.start
    && all[len..] == CharPiecesFrom(s, c, piece.start)
  }

  lemma StartPieces(s: string, c: char)
    ensures After(None, 1) == 0
    ensures if s == "" then CharPieces(s, c) == [] else RestIs(s, c, CharPieces(s, c), 0, Slice(0, EndOf(s, c, 0)))
  {
  }

  lemma NextPiece(s: string, c: char, all: seq<string>, len: nat, piece: Slice)
    requires s != "" && RestIs(s, c, all, len, piece)
    ensures len < |all| && IsSlice(s, piece, all[len])
    ensures var ofs := After(Some(piece), 1);
            if ofs <= |s| then RestIs(s, c, all, len + 1, Slice(ofs, EndOf(s, c, ofs) - ofs))
            else len + 1 == |all|
  {
    FirstPiece(s, c, piece.start);
    assert all[len] == all[len..][0] && all[len + 1..] == all[len..][1..];
  }

  /** Joining what was split gives back the subject. */
  lemma {:induction false} JoinCharPieces(s: string, c: char, start: nat)
    requires start <= |s|
    ensures Joined(CharPiecesFrom(s, c, start), [c]) == s[start..]
    decreases |s| - start
  {
    hide *;
    var end := EndOf(s, c, start);
    FirstPiece(s, c, start);
    if end < |s| {
      JoinCharPieces(s, c, end + 1);
      JoinedCons(s[start..end], CharPiecesFrom(s, c, end + 1), [c]);
      CutAt(s, start, end);
    } else {
      JoinedOne(s[start..], [c]);
    }
  }

  lemma JoinUndoesSplit(s: string, c: char)
    ensures Joined(CharPieces(s, c), [c]) == s
  {
    if s != "" {
      JoinCharPieces(s, c, 0);
    }
  }

  /** And splitting what was joined gives back the pieces, if none of them contains
      the separator; but the joint of one empty piece is split into none. */
  lemma SplitUndoesJoin(pieces: seq<string>, c: char)
    requires forall p | p in pieces :: c !in p
    ensures CharPieces(Joined(pieces, [c]), c) == pieces <==> pieces != [""]
  {
    if pieces != [] && pieces != [""] {
      SplitJoined(pieces, c, "");
      assert "" + Joined(pieces, [c]) == Joined(pieces, [c]);
      if |pieces| > 1 {
        assert c in pieces[0] + [c] + Joined(pieces[1..], [c]);
      }
    }
  }

  lemma {:induction false} SplitJoined(pieces: seq<string>, c: char, before: string)
    requires pieces != [] && forall p | p in pieces :: c !in p
    ensures CharPiecesFrom(before + Joined(pieces, [c]), c, |before|) == pieces
    decreases |pieces|
  {
    hide *;
    var s, p := before + Joined(pieces, [c]), pieces[0];
    FirstPiece(s, c, |before|);
    if |pieces| > 1 {
      assert pieces == [p] + pieces[1..];
      JoinedCons(p, pieces[1..], [c]);
      ThreeParts(before, p, [c], Joined(pieces[1..], [c]));
      EndIs(s, c, |before|, |before| + |p|);
      SplitJoined(pieces[1..], c, before + p + [c]);
    } else {
      assert pieces == [p];
      JoinedOne(p, [c]);
      assert s[|before|..|before| + |p|] == p;
      EndIs(s, c, |before|, |before| + |p|);
    }
  }

  lemma ThreeParts(before: string, p: string, c: string, rest: string)
    requires |c| == 1
    ensures var s := before + (p + c + rest); var end := |before| + |p|;
            s == before + p + c + rest && s[|before|..end] == p && s[end] == c[0]
  {
  }

  lemma {:induction false} EndIs(s: string, c: char, pos: nat, end: nat)
    requires pos <= end <= |s| && c !in s[pos..end]
    requires end < |s| ==> s[end] == c
    ensures EndOf(s, c, pos) == end
    decreases end - pos
  {
    if pos < end {
      assert s[pos] == s[pos..end][0];
      EndIs(s, c, pos + 1, end);
    }
  }
}
