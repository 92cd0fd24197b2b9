/** src/StringReader.c: a cursor over a string, and slices of the string that grow while the
    cursor moves. */
module StringReader {
  import opened Slices

  /** The slice after Extend at position i: an empty one starts there, any other grows by one,
      whatever lies between its end and i. */
  function Grown(v: Slice, i: nat): Slice {
    if v.len == 0 then Slice(i, 1) else Slice(v.start, v.len + 1)
  }

  /** The line of position i. */
  function LineAt(buf: string, i: nat): (line: nat)
    requires i <= |buf|
    ensures line == 1 + multiset(buf[..i])['\n']
  {
    assert i > 0 ==> buf[..i] == buf[..i - 1] + [buf[i - 1]];
    if i == 0 then 1 else LineAt(buf, i - 1) + if buf[i - 1] == '\n' then 1 else 0
  }

  class StringReader {
    const buf: string
    var ofs: nat
    var line: nat

    constructor (s: string)
      ensures Valid() && buf == s && ofs == 0
    {
      buf, ofs, line := s, 0, 1;
    }

    /** The cursor is inside the buffer, and line counts the line breaks passed. */
    ghost predicate Valid()
      reads this
    {
      ofs <= |buf| && line == LineAt(buf, ofs)
    }

    predicate IsEnd()
      reads this
    {
      ofs >= |buf|
    }

    /** The character cnt positions ahead, a NUL beyond the end. */
    function Peek(cnt: nat := 0): char
      reads this
    {
      if ofs + cnt >= |buf| then '\0' else buf[ofs + cnt]
    }

    method Consume()
      requires Valid() && !IsEnd()
      modifies this
      ensures Valid() && ofs == old(ofs) + 1
    {
      if buf[ofs] == '\n' {
        line := line + 1;
      }
      ofs := ofs + 1;
    }

    method Extend(v: Slice) returns (r: Slice)
      requires Valid() && !IsEnd() && Before(v, ofs)
      modifies this
      ensures Valid() && ofs == old(ofs) + 1 && r == Grown(v, old(ofs)) && Before(r, ofs)
    {
      if v.len == 0 {
        r := Slice(ofs, 1);
      } else {
        r := Slice(v.start, v.len + 1);
      }
      if buf[ofs] == '\n' {
        line := line + 1;
      }
      ofs := ofs + 1;
    }
  }

  /** The slice is the text from v to j. */
  ghost predicate Covers(s: string, value: Slice, v: nat, j: nat) {
    v <= j <= |s| && Before(value, j) && value.len == j - v && (v < j ==> value.start == v)
  }

  lemma CoversStart(s: string, v: nat)
    requires v <= |s|
    ensures Covers(s, Slice(0, 0), v, v)
  {
  }

  lemma CoversMore(s: string, value: Slice, v: nat, j: nat)
    requires Covers(s, value, v, j) && j < |s|
    ensures Before(value, j) && Covers(s, Grown(value, j), v, j + 1)
  {
  }

  lemma CoversNothing(s: string, value: Slice, v: nat, j: nat)
    requires Covers(s, value, v, j) && value.len == 0 && j < |s|
    ensures Covers(s, value, j + 1, j + 1)
  {
  }

  lemma CoversText(s: string, value: Slice, v: nat, j: nat)
    requires Covers(s, value, v, j)
    ensures v <= j <= |s| && Before(value, j) && Before(value, |s|) && Text(s, value) == s[v..j] && value.len == j - v
  {
  }
}
