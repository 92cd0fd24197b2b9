/** Splitting at a string and replacing all of its occurrences, of src/String.c.
    Both use the one-pass scan of `Search`, so they agree for every needle, even one
    that the scan can miss. */
module Replace {
  import opened Wrappers
  import opened Search
  import opened Sequences
  import opened Slices
  import opened Split

  /** The slice that starts at an offset: up to the needle, or the rest. */
  ghost function SliceAt(s: string, needle: string, start: nat): (piece: Slice)
    requires start <= |s|
    ensures Before(piece, |s|)
    ensures piece.start + piece.len < |s| && needle != "" ==> OccursAt(s, needle, piece.start + piece.len)
  {
    match FindSpec(s[start..], needle)
    case None => Slice(start, |s| - start)
    case Some(p) =>
      assert s[start..][p..p + |needle|] == s[start + p..start + p + |needle|];
      Slice(start, p)
  }

  ghost function PiecesFrom(s: string, needle: string, start: nat): (ps: seq<string>)
    requires needle != "" && start <= |s|
    ensures ps != []
    decreases |s| - start
  {
    match FindSpec(s[start..], needle)
    case None => [s[start..]]
    case Some(p) => [s[start..start + p]] + PiecesFrom(s, needle, start + p + |needle|)
  }

  ghost function Pieces(s: string, needle: string): seq<string>
    requires needle != ""
  {
    if s == "" then [] else PiecesFrom(s, needle, 0)
  }

  /** One step of the iteration over the pieces. */
  method SplitString(s: string, needle: string, prev: Option<Slice>) returns (more: bool, piece: Option<Slice>)
    ensures more == (s != "" && After(prev, |needle|) <= |s|)
    ensures piece == if more then Some(SliceAt(s, needle, After(prev, |needle|))) else prev
  {
    var offset := After(prev, |needle|);
    if |s| == 0 || offset > |s| {
      return false, prev;
    }
    var pos := Find(s[offset..], needle);
    more, piece := true, Some(Slice(offset, if pos.Some? then pos.value else |s| - offset));
  }

  /** A step yields the next of the pieces, and goes on behind the needle. */
  lemma SliceIsPiece(s: string, needle: string, start: nat)
    requires needle != "" && start <= |s|
    ensures var piece := SliceAt(s, needle, start);
            var text, next := Text(s, piece), After(Some(piece), |needle|);
            && piece.start == start
            && PiecesFrom(s, needle, start) == [text] + (if next <= |s| then PiecesFrom(s, needle, next) else [])
  {
    FirstCut(s, needle, start);
    assert s[start..|s|] == s[start..];
  }

  /** The iteration over the pieces, run to its end. */
  method AllPieces(s: string, needle: string) returns (pieces: seq<string>)
    requires needle != ""
    ensures pieces == Pieces(s, needle)
  {
    pieces := [];
    var more, piece := SplitString(s, needle, None);
    while more
      invariant more ==> s != "" && piece.Some? && piece.value.start <= |s|
      invariant more ==> piece.value == SliceAt(s, needle, piece.value.start)
      invariant Pieces(s, needle) == pieces + (if more then PiecesFrom(s, needle, piece.value.start) else [])
      decreases if more then |s| - piece.value.start + 1 else 0
    {
      hide SliceAt, PiecesFrom, Pieces;
      SliceIsPiece(s, needle, piece.value.start);
      ghost var text, next := Text(s, piece.value), After(piece, |needle|);
      Assoc(pieces, [text], if next <= |s| then PiecesFrom(s, needle, next) else []);
      if next <= |s| {
        SliceIsPiece(s, needle, next);
      }
      pieces := pieces + [Text(s, piece.value)];
      more, piece := SplitString(s, needle, piece);
    }
  }

  /** With the empty needle, the iteration stays at the end of the subject. */
  lemma EmptyNeedleStays(s: string, start: nat)
    requires start <= |s|
    ensures var piece := SliceAt(s, "", start);
            && piece == Slice(start, |s| - start)
            && After(Some(piece), 0) == |s| && SliceAt(s, "", |s|) == Slice(|s|, 0)
  {
  }

  /** What `ReplaceAll` appends from here on: i characters are read, the last cnt of
      them match the needle, and all up to `last` is done. */
  ghost function Tail(s: string, needle: string, repl: string, i: nat, cnt: nat, last: nat): string
    requires cnt < |needle| && last + cnt <= i <= |s|
    decreases |s| - i, cnt
  {
    if i == |s| then s[last..]
    else if s[i] == needle[cnt] then
      if cnt + 1 < |needle| then Tail(s, needle, repl, i + 1, cnt + 1, last)
      else s[last..i + 1 - |needle|] + repl + Tail(s, needle, repl, i + 1, 0, i + 1)
    else if cnt > 0 then Tail(s, needle, repl, i, 0, last)
    else Tail(s, needle, repl, i + 1, 0, last)
  }

  /** The replacement for the needle, which must not be empty. */
  method ReplaceAll(s: string, needle: string, repl: string) returns (out: string)
    requires needle != ""
    ensures out == Joined(Pieces(s, needle), repl)
  {
    hide *;
    ReplaceIsJoin(s, needle, repl);
    if |needle| > |s| {
      ShortSubject(s, needle, repl);
      return s;
    }
    out := "";
    var cnt, lastPos, i := 0, 0, 0;
    while i < |s|
      invariant 0 <= cnt < |needle| && 0 <= lastPos && lastPos + cnt <= i <= |s|
      invariant lastPos == 0 ==> out == ""
      invariant out + Tail(s, needle, repl, i, cnt, lastPos) == Tail(s, needle, repl, 0, 0, 0)
      decreases |s| - i, cnt
    {
      TailStep(s, needle, repl, i, cnt, lastPos);
      if s[i] == needle[cnt] {
        cnt := cnt + 1;
        if cnt == |needle| {
          var cur := i - |needle| + 1;
          Regroup(out, s[lastPos..cur], repl, Tail(s, needle, repl, i + 1, 0, i + 1));
          out := out + s[lastPos..cur];
          out := out + repl;
          lastPos := i + 1;
          cnt := 0;
        }
      } else if cnt > 0 {
        cnt := 0;
        i := i - 1;
      }
      i := i + 1;
    }
    TailEnd(s, needle, repl, cnt, lastPos);
    if lastPos != 0 {
      out := out + s[lastPos..];
    } else {
      out := s;
    }
  }

  lemma ShortSubject(s: string, needle: string, repl: string)
    requires |needle| > |s|
    ensures Tail(s, needle, repl, 0, 0, 0) == s
  {
    ScanTooShort(s, needle, 0, 0);
    TailIsScan(s, needle, repl, 0, 0, 0);
  }

  lemma TailEnd(s: string, needle: string, repl: string, cnt: nat, last: nat)
    requires cnt < |needle| && last + cnt <= |s|
    ensures Tail(s, needle, repl, |s|, cnt, last) == s[last..]
    ensures last == 0 ==> s[last..] == s
  {
  }

  lemma TailStep(s: string, needle: string, repl: string, i: nat, cnt: nat, last: nat)
    requires cnt < |needle| && last + cnt <= i < |s|
    ensures Tail(s, needle, repl, i, cnt, last) ==
      if s[i] == needle[cnt] then
        if cnt + 1 < |needle| then Tail(s, needle, repl, i + 1, cnt + 1, last)
        else s[last..i + 1 - |needle|] + repl + Tail(s, needle, repl, i + 1, 0, i + 1)
      else if cnt > 0 then Tail(s, needle, repl, i, 0, last)
      else Tail(s, needle, repl, i + 1, 0, last)
  {
  }

  /** The text `tail` is what comes of a cut that the scan proposes. */
  ghost predicate CutAsFound(s: string, needle: string, repl: string, last: nat, found: Option<nat>, tail: string)
    requires needle != "" && last <= |s|
  {
    match found
    case None => tail == s[last..]
    case Some(p) =>
      && last <= p && p + |needle| <= |s|
      && tail == s[last..p] + repl + Tail(s, needle, repl, p + |needle|, 0, p + |needle|)
  }

  /** The loop of `ReplaceAll` makes the cuts that the scan finds. */
  lemma {:induction false} TailIsScan(s: string, needle: string, repl: string, i: nat, cnt: nat, last: nat)
    requires cnt < |needle| && last + cnt <= i <= |s|
    ensures CutAsFound(s, needle, repl, last, Scan(s, needle, i, cnt), Tail(s, needle, repl, i, cnt, last))
    decreases |s| - i, cnt
  {
    if i < |s| && (s[i] != needle[cnt] || cnt + 1 < |needle|) {
      hide CutAsFound;
      if s[i] == needle[cnt] {
        TailIsScan(s, needle, repl, i + 1, cnt + 1, last);
      } else if cnt > 0 {
        TailIsScan(s, needle, repl, i, 0, last);
      } else {
        TailIsScan(s, needle, repl, i + 1, 0, last);
      }
    }
  }

  /** Scanning from an offset is scanning the rest of the subject. */
  lemma {:induction false} ScanShift(s: string, needle: string, ofs: nat, i: nat, cnt: nat)
    requires cnt < |needle| && ofs + cnt <= i <= |s|
    ensures match Scan(s[ofs..], needle, i - ofs, cnt)
            case None => Scan(s, needle, i, cnt) == None
            case Some(p) => Scan(s, needle, i, cnt) == Some(p + ofs)
    decreases |s| - i, cnt
  {
    if i < |s| {
      assert s[ofs..][i - ofs] == s[i];
      if s[i] == needle[cnt] {
        if cnt + 1 < |needle| {
          ScanShift(s, needle, ofs, i + 1, cnt + 1);
        }
      } else if cnt > 0 {
        ScanShift(s, needle, ofs, i, 0);
      } else {
        ScanShift(s, needle, ofs, i + 1, 0);
      }
    }
  }

  /** Replacing is splitting at the needle and joining with the replacement. */
  lemma {:induction false} TailIsJoin(s: string, needle: string, repl: string, start: nat)
    requires needle != "" && start <= |s|
    ensures Tail(s, needle, repl, start, 0, start) == Joined(PiecesFrom(s, needle, start), repl)
    decreases |s| - start
  {
    hide *;
    FirstTailCut(s, needle, repl, start);
    FirstCut(s, needle, start);
    match FindSpec(s[start..], needle)
    case None =>
      JoinedOne(s[start..], repl);
    case Some(p) =>
      var next := start + p + |needle|;
      JoinedCons(s[start..start + p], PiecesFrom(s, needle, next), repl);
      TailIsJoin(s, needle, repl, next);
  }

  lemma FirstTailCut(s: string, needle: string, repl: string, start: nat)
    requires needle != "" && start <= |s|
    ensures match FindSpec(s[start..], needle)
            case None => Tail(s, needle, repl, start, 0, start) == s[start..]
            case Some(p) =>
              && start + p + |needle| <= |s|
              && Tail(s, needle, repl, start, 0, start)
                 == s[start..start + p] + repl + Tail(s, needle, repl, start + p + |needle|, 0, start + p + |needle|)
  {
    hide Tail, Scan;
    ScanShift(s, needle, start, start, 0);
    TailIsScan(s, needle, repl, start, 0, start);
  }

  lemma FirstCut(s: string, needle: string, start: nat)
    requires needle != "" && start <= |s|
    ensures match FindSpec(s[start..], needle)
            case None => PiecesFrom(s, needle, start) == [s[start..]]
            case Some(p) =>
              && start + p + |needle| <= |s| && s[start + p..start + p + |needle|] == needle
              && PiecesFrom(s, needle, start) == [s[start..start + p]] + PiecesFrom(s, needle, start + p + |needle|)
  {
    match FindSpec(s[start..], needle)
    case None =>
    case Some(p) => assert s[start..][p..p + |needle|] == s[start + p..start + p + |needle|];
  }

  lemma ReplaceIsJoin(s: string, needle: string, repl: string)
    requires needle != ""
    ensures Tail(s, needle, repl, 0, 0, 0) == Joined(Pieces(s, needle), repl)
  {
    if s != "" {
      TailIsJoin(s, needle, repl, 0);
    }
  }

  /** Joining the pieces with the needle gives back the subject; so replacing the
      needle by itself changes nothing. */
  lemma {:induction false} JoinPieces(s: string, needle: string, start: nat)
    requires needle != "" && start <= |s|
    ensures Joined(PiecesFrom(s, needle, start), needle) == s[start..]
    decreases |s| - start
  {
    hide Joined, PiecesFrom;
    FirstCut(s, needle, start);
    match FindSpec(s[start..], needle)
    case None =>
      JoinedOne(s[start..], needle);
    case Some(p) =>
      var mid, next := start + p, start + p + |needle|;
      JoinPieces(s, needle, next);
      JoinedCons(s[start..mid], PiecesFrom(s, needle, next), needle);
      assert s[start..] == s[start..mid] + s[mid..next] + s[next..];
  }

  /** For the needles that the scan never misses, no piece contains the needle. */
  lemma {:induction false} PiecesAreFree(s: string, needle: string, start: nat, i: nat)
    requires needle != "" && Searchable(needle) && start <= |s|
    requires i < |PiecesFrom(s, needle, start)|
    ensures !Occurs(PiecesFrom(s, needle, start)[i], needle)
    decreases |s| - start
  {
    var rest := s[start..];
    FirstCut(s, needle, start);
    ScanComplete(rest, needle, 0, 0);
    match FindSpec(rest, needle)
    case None =>
    case Some(p) =>
      if i > 0 {
        PiecesAreFree(s, needle, start + p + |needle|, i - 1);
      } else {
        assert s[start..start + p] == rest[..p];
        NotInPrefix(rest, needle, p);
      }
  }

  /** No piece of any subject contains the needle exactly for the needles that the scan
      never misses; so for these, and for no other, replacing leaves none out. */
  lemma FreePiecesAreExact(needle: string)
    requires needle != ""
    ensures Searchable(needle) <==>
            forall s: string, i: nat | i < |Pieces(s, needle)| :: !Occurs(Pieces(s, needle)[i], needle)
  {
    if Searchable(needle) {
      forall s: string, i: nat | i < |Pieces(s, needle)|
        ensures !Occurs(Pieces(s, needle)[i], needle)
      {
        PiecesAreFree(s, needle, 0, i);
      }
    } else {
      var s := Missed(needle);
      FirstCut(s, needle, 0);
      assert s[0..] == s;
      assert Pieces(s, needle)[0] == s;
    }
  }

  lemma NotInPrefix(s: string, needle: string, p: nat)
    requires IsLeast(s, needle, Some(p)) && needle != ""
    ensures !Occurs(s[..p], needle)
  {
    forall q: nat
      ensures !OccursAt(s[..p], needle, q)
    {
      if OccursAt(s[..p], needle, q) {
        InWhole(s, needle, p, q);
        assert false;
      }
    }
  }

  lemma InWhole(s: string, needle: string, p: nat, q: nat)
    requires p <= |s| && OccursAt(s[..p], needle, q)
    ensures OccursAt(s, needle, q)
  {
    assert s[q..q + |needle|] == s[..p][q..q + |needle|];
  }
}
