/** Substring search of src/String.c. It scans once and, on a mismatch inside a
    partial match, starts over at the mismatching character without going back to
    the start of that partial match. */
module Search {
  import opened Wrappers

  ghost predicate OccursAt(s: string, needle: string, p: nat) {
    p + |needle| <= |s| && s[p..p + |needle|] == needle
  }

  ghost predicate Occurs(s: string, needle: string) {
    exists p: nat :: OccursAt(s, needle, p)
  }

  /** r is the least position at which the needle occurs, or None if it does not. */
  ghost predicate IsLeast(s: string, needle: string, r: Option<nat>) {
    match r
    case None => forall p: nat :: !OccursAt(s, needle, p)
    case Some(q) => OccursAt(s, needle, q) && forall p: nat | p < q :: !OccursAt(s, needle, p)
  }

  /** The first index >= from at which the first character of the needle recurs,
      or the length of the needle. */
  function Recurrence(needle: string, from: nat): (k: nat)
    requires 0 < from <= |needle|
    ensures from <= k <= |needle|
    ensures k < |needle| ==> needle[k] == needle[0]
    ensures forall j | from <= j < k :: needle[j] != needle[0]
    decreases |needle| - from
  {
    if from == |needle| || needle[from] == needle[0] then from else Recurrence(needle, from + 1)
  }

  ghost predicate HasPeriod(needle: string, k: nat) {
    forall j | 0 <= j && j + k < |needle| :: needle[j + k] == needle[j]
  }

  /** The needles for which the search misses nothing: where the first character
      recurs, if it does, the needle starts over and goes on repeating itself. */
  ghost predicate Searchable(needle: string) {
    needle == "" || HasPeriod(needle, Recurrence(needle, 1))
  }

  /** The scan with i characters read, the last cnt of which match the needle. */
  ghost function Scan(s: string, needle: string, i: nat, cnt: nat): Option<nat>
    requires cnt < |needle| && cnt <= i <= |s|
    decreases |s| - i, cnt
  {
    if i == |s| then None
    else if s[i] == needle[cnt] then
      if cnt + 1 == |needle| then Some(i + 1 - |needle|) else Scan(s, needle, i + 1, cnt + 1)
    else if cnt > 0 then Scan(s, needle, i, 0)
    else Scan(s, needle, i + 1, 0)
  }

  ghost function FindSpec(s: string, needle: string): (r: Option<nat>)
    ensures r.Some? ==> OccursAt(s, needle, r.value)
    ensures needle == "" ==> r == None
  {
    if needle != "" then ScanSound(s, needle, 0, 0); Scan(s, needle, 0, 0) else None
  }

  method Find(s: string, needle: string) returns (r: Option<nat>)
    ensures r == FindSpec(s, needle)
    ensures r.Some? ==> OccursAt(s, needle, r.value)
    ensures needle == "" ==> r == None
    ensures needle != "" && Searchable(needle) ==> IsLeast(s, needle, r)
  {
    if needle != "" {
      ScanSound(s, needle, 0, 0);
      if Searchable(needle) {
        ScanComplete(s, needle, 0, 0);
      }
    }
    if needle == "" || |needle| > |s| {
      if needle != "" {
        ScanTooShort(s, needle, 0, 0);
      }
      return None;
    } else if |needle| == |s| {
      FindWhole(s, needle);
      return if s != needle then None else Some(0);
    }

    var cnt := 0;
    var i := 0;
    while i < |s|
      invariant 0 <= cnt < |needle| && cnt <= i <= |s|
      invariant Scan(s, needle, 0, 0) == Scan(s, needle, i, cnt)
      decreases |s| - i, cnt
    {
      if s[i] == needle[cnt] {
        cnt := cnt + 1;
        if cnt == |needle| {
          return Some(i - |needle| + 1);
        }
      } else if cnt > 0 {
        cnt := 0;
        i := i - 1;
      }
      i := i + 1;
    }
    return None;
  }

  lemma MatchGrows(s: string, needle: string, i: nat, cnt: nat)
    requires cnt < |needle| && cnt <= i < |s|
    requires s[i - cnt..i] == needle[..cnt] && s[i] == needle[cnt]
    ensures s[i - cnt..i + 1] == needle[..cnt + 1]
  {
    assert s[i - cnt..i + 1] == s[i - cnt..i] + [s[i]];
    assert needle[..cnt + 1] == needle[..cnt] + [needle[cnt]];
  }

  /** Whatever the needle, a reported position is an occurrence. */
  lemma {:induction false} ScanSound(s: string, needle: string, i: nat, cnt: nat)
    requires cnt < |needle| && cnt <= i <= |s|
    requires s[i - cnt..i] == needle[..cnt]
    ensures Scan(s, needle, i, cnt).Some? ==>
              OccursAt(s, needle, Scan(s, needle, i, cnt).value) && Scan(s, needle, i, cnt).value >= i - cnt
    decreases |s| - i, cnt
  {
    if i < |s| {
      if s[i] == needle[cnt] {
        MatchGrows(s, needle, i, cnt);
        if cnt + 1 < |needle| {
          ScanSound(s, needle, i + 1, cnt + 1);
        }
      } else if cnt > 0 {
        ScanSound(s, needle, i, 0);
      } else {
        ScanSound(s, needle, i + 1, 0);
      }
    }
  }

  lemma {:induction false} ScanTooShort(s: string, needle: string, i: nat, cnt: nat)
    requires cnt < |needle| && cnt <= i <= |s|
    requires |s| - i + cnt < |needle|
    ensures Scan(s, needle, i, cnt) == None
    decreases |s| - i, cnt
  {
    if i < |s| {
      if s[i] == needle[cnt] {
        ScanTooShort(s, needle, i + 1, cnt + 1);
      } else if cnt > 0 {
        ScanTooShort(s, needle, i, 0);
      } else {
        ScanTooShort(s, needle, i + 1, 0);
      }
    }
  }

  /** The scan runs straight through characters that match. */
  lemma {:induction false} ScanThrough(s: string, needle: string, start: nat, cnt: nat, m: nat)
    requires cnt <= m < |needle| && start + m <= |s|
    requires forall x {:trigger needle[x]} | cnt <= x < m :: s[start + x] == needle[x]
    ensures Scan(s, needle, start + cnt, cnt) == Scan(s, needle, start + m, m)
    decreases m - cnt
  {
    if cnt < m {
      ScanThrough(s, needle, start, cnt + 1, m);
    }
  }

  /** A subject as long as the needle: the scan finds it iff they are equal. */
  lemma FindWhole(s: string, needle: string)
    requires |s| == |needle| > 0
    ensures Scan(s, needle, 0, 0) == if s == needle then Some(0) else None
  {
    ScanSound(s, needle, 0, 0);
    if s == needle {
      ScanThrough(s, needle, 0, 0, |s| - 1);
    }
  }

  /** In a searchable needle every recurrence of the first character is a period. */
  lemma {:induction false} RecurrenceIsPeriod(needle: string, o: nat)
    requires needle != "" && Searchable(needle)
    requires 0 < o < |needle| && needle[o] == needle[0]
    ensures HasPeriod(needle, o)
    decreases o
  {
    var k := Recurrence(needle, 1);
    if o > k {
      assert needle[(o - k) + k] == needle[o - k];
      RecurrenceIsPeriod(needle, o - k);
      forall j | 0 <= j && j + o < |needle|
        ensures needle[j + o] == needle[j]
      {
        assert needle[(j + o - k) + k] == needle[j + o - k];
        assert needle[j + (o - k)] == needle[j];
      }
    }
  }

  lemma OccurrenceAt(s: string, needle: string, p: nat, x: nat)
    requires OccursAt(s, needle, p) && x < |needle|
    ensures s[p + x] == needle[x]
  {
    assert s[p + x] == s[p..p + |needle|][x];
  }

  /** An occurrence that starts inside a partial match would make that match go on. */
  lemma ShiftMatches(s: string, needle: string, i: nat, cnt: nat, o: nat)
    requires needle != "" && Searchable(needle)
    requires 0 < o < cnt < |needle| && cnt <= i < |s|
    requires s[i - cnt..i] == needle[..cnt] && OccursAt(s, needle, i - cnt + o)
    ensures s[i] == needle[cnt]
  {
    var p := i - cnt + o;
    OccurrenceAt(s, needle, p, 0);
    assert s[p] == s[i - cnt..i][o] == needle[o];
    RecurrenceIsPeriod(needle, o);
    OccurrenceAt(s, needle, p, cnt - o);
    assert needle[(cnt - o) + o] == needle[cnt - o];
  }

  /** No occurrence starts before the character that ended a partial match. */
  lemma NoneBefore(s: string, needle: string, i: nat, cnt: nat, p: nat)
    requires needle != "" && Searchable(needle)
    requires cnt < |needle| && cnt <= i < |s|
    requires s[i - cnt..i] == needle[..cnt] && s[i] != needle[cnt]
    requires i - cnt <= p <= i && (p == i ==> cnt == 0)
    ensures !OccursAt(s, needle, p)
  {
    if OccursAt(s, needle, p) {
      if p > i - cnt {
        ShiftMatches(s, needle, i, cnt, p - (i - cnt));
      } else {
        OccurrenceAt(s, needle, p, cnt);
      }
      assert false;
    }
  }

  lemma {:induction false} ScanComplete(s: string, needle: string, i: nat, cnt: nat)
    requires needle != "" && Searchable(needle)
    requires cnt < |needle| && cnt <= i <= |s|
    requires s[i - cnt..i] == needle[..cnt]
    requires forall p: nat | p < i - cnt :: !OccursAt(s, needle, p)
    ensures IsLeast(s, needle, Scan(s, needle, i, cnt))
    decreases |s| - i, cnt
  {
    if i < |s| {
      if s[i] == needle[cnt] {
        MatchGrows(s, needle, i, cnt);
        if cnt + 1 < |needle| {
          ScanComplete(s, needle, i + 1, cnt + 1);
        }
      } else {
        forall p: nat | i - cnt <= p <= i && (p == i ==> cnt == 0)
          ensures !OccursAt(s, needle, p)
        {
          NoneBefore(s, needle, i, cnt, p);
        }
        if cnt > 0 {
          ScanComplete(s, needle, i, 0);
        } else {
          ScanComplete(s, needle, i + 1, 0);
        }
      }
    }
  }

  /** For every other needle there is a subject in which the search misses it. */
  lemma Missed(needle: string) returns (s: string)
    requires !Searchable(needle)
    ensures Occurs(s, needle) && FindSpec(s, needle) == None
  {
    var k := Recurrence(needle, 1);
    assert k < |needle|;
    var j := FirstBreak(needle, k, 0);
    s := needle[..k] + needle;
    assert s[k..k + |needle|] == needle;
    assert OccursAt(s, needle, k);
    MissedAt(needle, k, j);
  }

  lemma MissedAt(needle: string, k: nat, j: nat)
    requires 0 < k && 0 < j && j + k < |needle| && needle[j + k] != needle[j]
    requires forall x | 0 <= x < j :: needle[x + k] == needle[x]
    ensures FindSpec(needle[..k] + needle, needle) == None
  {
    var s := needle[..k] + needle;
    forall x {:trigger needle[x]} | 0 <= x < k + j
      ensures s[0 + x] == needle[x]
    {
      if x >= k {
        assert needle[(x - k) + k] == needle[x - k];
      }
    }
    ScanThrough(s, needle, 0, 0, k + j);
    assert s[k + j] == needle[j];
    ScanTooShort(s, needle, k + j, 0);
  }

  /** Where the repetition breaks first; never at its start, as that recurs. */
  lemma {:induction false} FirstBreak(needle: string, k: nat, from: nat) returns (j: nat)
    requires 0 < k < |needle| && needle[k] == needle[0]
    requires !HasPeriod(needle, k)
    requires forall x | 0 <= x < from && x + k < |needle| :: needle[x + k] == needle[x]
    ensures 0 < j && j + k < |needle| && needle[j + k] != needle[j]
    ensures forall x | 0 <= x < j :: needle[x + k] == needle[x]
    decreases |needle| - from
  {
    if from + k < |needle| && needle[from + k] != needle[from] {
      j := from;
    } else {
      j := FirstBreak(needle, k, from + 1);
    }
  }

  /** The search finds the least occurrence in every subject exactly for the
      searchable needles. */
  lemma SearchableIsExact(needle: string)
    requires needle != ""
    ensures Searchable(needle) <==> forall s: string :: IsLeast(s, needle, FindSpec(s, needle))
  {
    if Searchable(needle) {
      forall s: string
        ensures IsLeast(s, needle, FindSpec(s, needle))
      {
        ScanComplete(s, needle, 0, 0);
      }
    } else {
      var s := Missed(needle);
      assert !IsLeast(s, needle, FindSpec(s, needle));
    }
  }

  /** In particular, a needle whose first character does not recur is searchable. */
  lemma NoRecurrence(needle: string)
    requires forall j | 0 < j < |needle| :: needle[j] != needle[0]
    ensures Searchable(needle)
  {
  }

  /** "aab" is not: it occurs in "aaab" and is not found there. */
  lemma MissedExample()
    ensures OccursAt("aaab", "aab", 1) && FindSpec("aaab", "aab") == None
  {
    var s, n := "aaab", "aab";
    assert s[1..1 + |n|] == n;
    assert Scan(s, n, 0, 0) == Scan(s, n, 1, 1) == Scan(s, n, 2, 2) == Scan(s, n, 2, 0);
    assert Scan(s, n, 2, 0) == Scan(s, n, 3, 1) == Scan(s, n, 3, 0) == Scan(s, n, 4, 0);
  }

  // ----- the reference: attempts, of which each begins where the last one broke off

  /** How many characters two texts have in common at their starts. */
  function Common(a: string, b: string): (k: nat)
    ensures k <= |a| && k <= |b| && a[..k] == b[..k]
    ensures k < |a| && k < |b| ==> a[k] != b[k]
  {
    if a == "" || b == "" || a[0] != b[0] then 0 else 1 + Common(a[1..], b[1..])
  }

  /** The occurrence that attempts from position a on find. */
  ghost function Attempts(s: string, needle: string, a: nat): Option<nat>
    requires needle != "" && a <= |s|
    decreases |s| - a
  {
    var k := Common(s[a..], needle);
    if k == |needle| then Some(a)
    else if a + k == |s| then None
    else Attempts(s, needle, if k == 0 then a + 1 else a + k)
  }

  /** The scan makes just these attempts, whatever the needle. */
  lemma {:induction false} ScanIsAttempts(s: string, needle: string, a: nat)
    requires needle != "" && a <= |s|
    ensures Scan(s, needle, a, 0) == Attempts(s, needle, a)
    decreases |s| - a
  {
    var k := Common(s[a..], needle);
    var m := if k == |needle| then k - 1 else k;
    forall x {:trigger needle[x]} | 0 <= x < m
      ensures s[a + x] == needle[x]
    {
      assert s[a..][..k][x] == needle[..k][x];
    }
    ScanThrough(s, needle, a, 0, m);
    if k == |needle| {
      assert s[a..][..k][m] == needle[..k][m];
    } else if a + k < |s| {
      assert s[a..][k] == s[a + k];
      ScanIsAttempts(s, needle, if k == 0 then a + 1 else a + k);
    }
  }
}
