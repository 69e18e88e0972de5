/**
  `LittleFSWrapper::findInFile`: greedy search for all occurrences of a string, keeping every n-th of
  them, forwards up to a maximum, or backwards, where the last ones are kept.
 */
module Finding {
  import opened Options
  import opened FileSearch

  const ERR_NULL_PTR := -3

  /** The starts of the occurrences found by searching on behind each, from positions up to `bound`. */
  function Matches(file: string, pat: string, from: nat, bound: int): (ms: seq<nat>)
    decreases |file| - from
  {
    if pat == [] || from > bound || from >= |file| then []
    else
      var data := file[from..];
      var k := FirstEnd(data, pat, 0);
      if k == |data| then []
      else [from + k + 1 - |pat|] + Matches(file, pat, from + k + 1, bound)
  }

  /** `k`-th match next to be kept, and those kept so far. */
  datatype Picked = Picked(next: int, kept: seq<nat>)

  function Pick(ms: seq<nat>, first: int, every: int): Picked {
    if ms == [] then Picked(first, [])
    else
      var p := Pick(ms[..|ms| - 1], first, every);
      if |ms| == p.next then Picked(p.next + every, p.kept + [ms[|ms| - 1]]) else p
  }

  function LastN(s: seq<nat>, n: int): seq<nat> {
    if 0 < n < |s| then s[|s| - n..] else s
  }

  /** The maximum after the division by the step. */
  function Cap(max: int, every: int): int {
    if max > 0 && every > 1 then max / every else max
  }

  method FindInFile(disk: Disk, path: string, findStr: Option<string>, want: bool, max: int, every: int, offset: int)
    returns (rc: int, indices: seq<nat>)
    requires findStr.Some? ==> |findStr.value| <= 65535 && NoNul(findStr.value)
    ensures findStr.None? ==> rc == ERR_NULL_PTR && indices == []
    ensures findStr.Some? && path !in disk ==> rc == ERR_NOENT && indices == []
    ensures findStr.Some? && path in disk && offset >= 0 ==>
      Forward(Matches(disk[path], findStr.value, offset, |disk[path]|), want, Cap(max, every), every, rc, indices)
    ensures findStr.Some? && path in disk && offset < 0 ==>
      Backward(Matches(disk[path], findStr.value, 0, -offset), want, Cap(max, every), every, rc, indices)
    decreases offset < 0 && every > 1
  {
    rc, indices := ERR_NULL_PTR, [];
    if findStr.Some? {
      rc := ERR_NOENT;
      if path in disk {
        var first := every;
        if offset < 0 && every > 1 {
          var total, none := FindInFile(disk, path, findStr, false, -1, 1, offset);
          first := total % every + 1;
        }
        rc, indices := Search(disk, path, findStr.value, want, Cap(max, every), first, every, offset);
      }
    }
  }

  /** How much the forward search has towards its maximum after `r` matches. */
  function Count(ms: seq<nat>, want: bool, every: int, r: nat): nat
    requires r <= |ms|
  {
    if want then |Pick(ms[..r], every, every).kept| else r
  }

  /**
    A forward search finds all matches, or the shortest start of them that reaches the maximum; it
    looks for one match in any case.
   */
  ghost predicate Forward(ms: seq<nat>, want: bool, cap: int, every: int, found: int, indices: seq<nat>) {
    && 0 <= found <= |ms|
    && indices == (if want then Pick(ms[..found], every, every).kept else [])
    && (found < |ms| ==> found > 0 && 0 <= cap <= Count(ms, want, every, found))
    && (forall r | 1 <= r < found :: cap < 0 || Count(ms, want, every, r) < cap)
  }

  /** A backward search finds all matches and keeps the last picks, counted from the last match. */
  ghost predicate Backward(ms: seq<nat>, want: bool, cap: int, every: int, found: int, indices: seq<nat>) {
    && found == |ms|
    && indices == (if want then LastN(Pick(ms, if every > 1 then |ms| % every + 1 else every, every).kept, cap) else [])
  }

  /** One `readFile` of the search: the distance to the end of the next match, whatever the chunk size. */
  method NextMatch(disk: Disk, path: string, pat: string, chunk: nat, at: nat) returns (n: nat, hit: bool)
    requires path in disk && |pat| <= 65535 && NoNul(pat) && 1 <= chunk <= 250
    ensures n == Distance(disk[path], pat, at) && (hit <==> n < |From(disk[path], at)|)
  {
    var cb := (s: int, d: string) => (s, true);
    assert Unstopping(cb);
    var read, s, found := ReadFile(disk, path, chunk, cb, 0, at, Some(pat), true);
    NeverStopped(cb, 0, From(disk[path], at), chunk);
    n, hit := read, found;
  }

  /** The distance `readFile` reports from `at`. */
  function Distance(file: string, pat: string, at: nat): (k: nat)
    ensures k <= |From(file, at)|
  {
    if pat == [] then |From(file, at)| else FirstEnd(From(file, at), pat, 0)
  }

  lemma MatchesOn(file: string, pat: string, at: nat, bound: int)
    requires at <= bound
    ensures var k := Distance(file, pat, at);
      Matches(file, pat, at, bound)
        == if k < |From(file, at)| then [at + k + 1 - |pat|] + Matches(file, pat, at + k + 1, bound) else []
  {
    hide FileSearch.FirstEnd, FileSearch.OccursAt;
  }

  lemma LastSnoc(s: seq<nat>, cap: int, x: nat)
    ensures var l := LastN(s, cap);
      LastN(s + [x], cap) == (if 0 < cap <= |l| then l[1..] else l) + [x]
  {
  }

  /** `found` matches are behind position `at`; `next` and `indices` are what the loop has kept of them. */
  ghost predicate Found(all: seq<nat>, rest: seq<nat>, want: bool, cap: int, first: int, every: int, back: bool,
                        found: nat, next: int, indices: seq<nat>)
  {
    && found <= |all| && rest == all[found..]
    && var p := Pick(all[..found], first, every);
    next == p.next && indices == if !want then [] else if back then LastN(p.kept, cap) else p.kept
  }

  lemma FoundStep(all: seq<nat>, rest: seq<nat>, want: bool, cap: int, first: int, every: int, back: bool,
                  found: nat, next: int, indices: seq<nat>)
    requires Found(all, rest, want, cap, first, every, back, found, next, indices) && rest != []
    ensures found + 1 != next ==> Found(all, rest[1..], want, cap, first, every, back, found + 1, next, indices)
    ensures found + 1 == next && !want ==> Found(all, rest[1..], want, cap, first, every, back, found + 1, next + every, indices)
    ensures found + 1 == next && want ==>
      Found(all, rest[1..], want, cap, first, every, back, found + 1, next + every,
            (if back && 0 < cap <= |indices| then indices[1..] else indices) + [rest[0]])
  {
    var more := all[..found + 1];
    assert more[..found] == all[..found] && more[found] == rest[0] && all[found + 1..] == rest[1..];
    LastSnoc(Pick(all[..found], first, every).kept, cap, rest[0]);
  }

  /** One round of the loop: search, and keep the match if its turn has come. */
  method Round(disk: Disk, path: string, pat: string, want: bool, cap: int, every: int, back: bool, chunk: nat,
               at0: nat, found0: nat, next0: int, indices0: seq<nat>, ghost all: seq<nat>, ghost first: int, ghost bound: int)
    returns (at: nat, found: nat, next: int, indices: seq<nat>)
    requires path in disk && |pat| <= 65535 && NoNul(pat) && 1 <= chunk <= 250 && at0 <= bound
    requires Found(all, Matches(disk[path], pat, at0, bound), want, cap, first, every, back, found0, next0, indices0)
    ensures Found(all, Matches(disk[path], pat, at, bound), want, cap, first, every, back, found, next, indices)
    ensures at > at0 && (found == found0 ==> at > |disk[path]|) && found0 <= found <= found0 + 1
  {
    hide FileSearch.FirstEnd, Distance, Matches, Found;
    MatchesOn(disk[path], pat, at0, bound);
    found, next, indices := found0, next0, indices0;
    var n, hit := NextMatch(disk, path, pat, chunk, at0);
    at := at0 + n + 1;
    if hit {
      FoundStep(all, Matches(disk[path], pat, at0, bound), want, cap, first, every, back, found0, next0, indices0);
      found := found + 1;
      if found == next {
        if want {
          if back && cap > 0 && |indices| >= cap {
            indices := indices[1..];
          }
          indices := indices + [at - |pat|];
        }
        next := next + every;
      }
    } else {
      NoneBehind(disk[path], pat, at, bound);
    }
  }

  lemma NoneBehind(file: string, pat: string, at: nat, bound: int)
    requires at >= |file| || at > bound
    ensures Matches(file, pat, at, bound) == []
  {
  }

  method Search(disk: Disk, path: string, pat: string, want: bool, cap: int, first: int, every: int, offset: int)
    returns (found: nat, indices: seq<nat>)
    requires path in disk && |pat| <= 65535 && NoNul(pat)
    ensures offset >= 0 && first == every ==>
      Forward(Matches(disk[path], pat, offset, |disk[path]|), want, cap, every, found, indices)
    ensures offset < 0 ==>
      var ms := Matches(disk[path], pat, 0, -offset);
      found == |ms| && indices == (if want then LastN(Pick(ms, first, every).kept, cap) else [])
  {
    hide Matches;
    var end := if offset < 0 then -offset else -1;
    var at: nat := if offset < 0 then 0 else offset;
    var chunk := if end < 0 || end > 250 then 250 else end;
    var next := first;
    ghost var file := disk[path];
    ghost var bound := if offset < 0 then end else if |file| < offset then offset else |file|;
    ghost var all := Matches(file, pat, at, bound);
    found, indices := 0, [];
    var go := true;
    while go
      invariant 1 <= chunk <= 250 && (go ==> at <= bound)
      invariant Found(all, Matches(file, pat, at, bound), want, cap, first, every, offset < 0, found, next, indices)
      invariant go && found > 0 && offset >= 0 ==> cap < 0 || (if want then |indices| else found) < cap
      invariant !go ==> at >= |file| || at > bound || (offset >= 0 && found > 0 && 0 <= cap <= if want then |indices| else found)
      invariant offset >= 0 && first == every ==> forall r | 1 <= r < found :: cap < 0 || Count(all, want, every, r) < cap
      decreases go, |file| - at
    {
      at, found, next, indices := Round(disk, path, pat, want, cap, every, offset < 0, chunk, at, found, next, indices, all, first, bound);
      go := at < |disk[path]| && (offset < 0 || cap < 0 || (if want then |indices| else found) < cap);
      if end > 0 {
        if at > end {
          go := false;
        } else if at + chunk > end {
          chunk := end - at + 1;
        }
      }
    }
    if at >= |file| || at > bound {
      NoneBehind(file, pat, at, bound);
      assert all[..found] == all;
    }
    if offset >= 0 && |file| < offset {
      NoneBehind(file, pat, offset, bound);
      NoneBehind(file, pat, offset, |file|);
    }
  }

  // ----- what the search finds -----

  /** Where the search for match `i` starts: behind the match before it. */
  function SearchFrom(ms: seq<nat>, pat: string, from: nat, i: nat): nat
    requires i <= |ms|
  {
    if i == 0 then from else ms[i - 1] + |pat|
  }

  /** `FirstEnd` on the rest of the file, in terms of where occurrences start. */
  lemma Leftmost(file: string, pat: string, from: nat)
    requires pat != [] && from <= |file|
    ensures var data := file[from..];
      var k := FirstEnd(data, pat, 0);
      var start := from + k + 1 - |pat|;
      && (k < |data| ==> OccursAt(file, pat, start) && from <= start && forall j | from <= j < start :: !OccursAt(file, pat, j))
      && (k == |data| ==> forall j | from <= j :: !OccursAt(file, pat, j))
  {
    var data := file[from..];
    forall j: int | from <= j
      ensures OccursAt(file, pat, j) <==> EndsAt(data, pat, j - from + |pat| - 1)
    {
      if j + |pat| <= |file| {
        assert file[j..j + |pat|] == data[j - from..j - from + |pat|];
      }
    }
  }

  lemma {:induction false} MatchAt(file: string, pat: string, from: nat, bound: int, i: nat)
    requires pat != [] && i < |Matches(file, pat, from, bound)|
    ensures var ms := Matches(file, pat, from, bound);
      && OccursAt(file, pat, ms[i]) && SearchFrom(ms, pat, from, i) <= ms[i]
      && (forall k | SearchFrom(ms, pat, from, i) <= k < ms[i] :: !OccursAt(file, pat, k))
    decreases i
  {
    hide FileSearch.FirstEnd, FileSearch.OccursAt;
    Leftmost(file, pat, from);
    var ms := Matches(file, pat, from, bound);
    var next := from + FirstEnd(file[from..], pat, 0) + 1;
    var rest := Matches(file, pat, next, bound);
    assert ms == [next - |pat|] + rest;
    if i > 0 {
      MatchAt(file, pat, next, bound, i - 1);
      assert ms[i] == rest[i - 1] && SearchFrom(ms, pat, from, i) == SearchFrom(rest, pat, next, i - 1);
    }
  }

  lemma NoneBeyond(file: string, pat: string, from: nat)
    requires pat != [] && from >= |file|
    ensures forall k | from <= k :: !OccursAt(file, pat, k)
  {
  }

  lemma {:induction false} NoneLeft(file: string, pat: string, from: nat, bound: int)
    requires pat != [] && bound >= |file|
    ensures var ms := Matches(file, pat, from, bound);
      forall k | SearchFrom(ms, pat, from, |ms|) <= k :: !OccursAt(file, pat, k)
    decreases |file| - from
  {
    hide FileSearch.FirstEnd, FileSearch.OccursAt;
    var ms := Matches(file, pat, from, bound);
    if from < |file| {
      Leftmost(file, pat, from);
      var next := from + FirstEnd(file[from..], pat, 0) + 1;
      if ms != [] {
        NoneLeft(file, pat, next, bound);
        var rest := Matches(file, pat, next, bound);
        assert ms == [next - |pat|] + rest;
        assert SearchFrom(ms, pat, from, |ms|) == SearchFrom(rest, pat, next, |rest|);
      }
    } else {
      NoneBeyond(file, pat, from);
    }
  }

  /**
    Every match is the leftmost occurrence behind the one before, so matches never overlap; and a
    search not bounded before the end of the file leaves no occurrence behind its last match.
   */
  lemma GreedyMatches(file: string, pat: string, from: nat, bound: int)
    requires pat != []
    ensures var ms := Matches(file, pat, from, bound);
      && (forall i | 0 <= i < |ms| :: OccursAt(file, pat, ms[i]) && SearchFrom(ms, pat, from, i) <= ms[i])
      && (forall i, k | 0 <= i < |ms| && SearchFrom(ms, pat, from, i) <= k < ms[i] :: !OccursAt(file, pat, k))
      && (bound >= |file| ==> forall k | SearchFrom(ms, pat, from, |ms|) <= k :: !OccursAt(file, pat, k))
  {
    hide Matches, SearchFrom, FileSearch.OccursAt;
    var ms := Matches(file, pat, from, bound);
    forall i | 0 <= i < |ms|
      ensures OccursAt(file, pat, ms[i]) && SearchFrom(ms, pat, from, i) <= ms[i]
      ensures forall k | SearchFrom(ms, pat, from, i) <= k < ms[i] :: !OccursAt(file, pat, k)
    {
      MatchAt(file, pat, from, bound, i);
    }
    if bound >= |file| {
      NoneLeft(file, pat, from, bound);
    }
  }

  /** Match number `first`, and every `every`-th one after it, is kept; and nothing else. */
  lemma {:induction false} PickForm(ms: seq<nat>, first: nat, every: nat)
    requires first > 0 && every > 0
    ensures var p := Pick(ms, first, every);
      && p.next == first + |p.kept| * every && p.next > |ms|
      && (p.kept != [] ==> p.next <= |ms| + every)
      && (forall j | 0 <= j < |p.kept| :: 0 <= first - 1 + j * every < |ms| && p.kept[j] == ms[first - 1 + j * every])
  {
    if ms != [] {
      var less := ms[..|ms| - 1];
      PickForm(less, first, every);
      var q, p := Pick(less, first, every), Pick(ms, first, every);
      if |ms| == q.next {
        assert (|q.kept| + 1) * every == |q.kept| * every + every;
      }
    }
  }

  lemma MulBound(x: int, n: nat)
    ensures x >= 1 ==> x * n >= n
    ensures x <= -1 ==> x * n + n <= 0
  {
    if x >= 1 {
      assert (x - 1) * n >= 0;
    } else if x <= -1 {
      var y: nat := -x - 1;
      assert y * n >= 0 && x * n == -(y * n) - n;
    }
  }

  lemma Quotient(total: nat, n: nat, q: int, r: nat)
    requires r < n && total == q * n + r
    ensures total / n == q
  {
    var d := q - total / n;
    assert total == (total / n) * n + total % n;
    assert d * n == total % n - r;
    MulBound(d, n);
  }

  /** How many are kept when counting starts behind the remainder. */
  lemma KeptCount(total: nat, n: nat, c: nat)
    requires n > 0 && total % n + 1 + c * n > total && (c > 0 ==> total % n + 1 + c * n <= total + n)
    ensures c == total / n
  {
    assert total == (total / n) * n + total % n;
    MulBound(c - total / n, n);
    assert (c - total / n) * n == c * n - (total / n) * n;
  }

  lemma PickAt(ms: seq<nat>, first: nat, every: nat, j: nat)
    requires first > 0 && every > 0 && j < |Pick(ms, first, every).kept|
    ensures 0 <= first - 1 + j * every < |ms| && Pick(ms, first, every).kept[j] == ms[first - 1 + j * every]
  {
    PickForm(ms, first, every);
  }

  lemma PickCount(ms: seq<nat>, n: nat)
    requires n > 0
    ensures |Pick(ms, |ms| % n + 1, n).kept| == |ms| / n
  {
    PickForm(ms, |ms| % n + 1, n);
    KeptCount(|ms|, n, |Pick(ms, |ms| % n + 1, n).kept|);
  }

  lemma FromTheEnd(total: nat, n: nat, kept: nat, back: nat)
    requires n > 0 && kept == total / n && back <= kept
    ensures total % n + (kept - back) * n == total - back * n
  {
    assert total == kept * n + total % n;
    assert (kept - back) * n == kept * n - back * n;
  }

  /** The entry with `back` entries from it to the end is match number T - back*n + 1 of all T. */
  ghost predicate CountedBack(ms: seq<nat>, n: nat, indices: seq<nat>, i: nat)
    requires i < |indices|
  {
    var c := |ms| - (|indices| - i) * n;
    0 <= c < |ms| && indices[i] == ms[c]
  }

  lemma LastPickAt(ms: seq<nat>, cap: int, n: nat, i: nat)
    requires n > 0 && i < |LastN(Pick(ms, |ms| % n + 1, n).kept, cap)|
    ensures CountedBack(ms, n, LastN(Pick(ms, |ms| % n + 1, n).kept, cap), i)
  {
    var kept := Pick(ms, |ms| % n + 1, n).kept;
    var indices := LastN(kept, cap);
    var back := |indices| - i;
    PickCount(ms, n);
    FromTheEnd(|ms|, n, |kept|, back);
    PickAt(ms, |ms| % n + 1, n, |kept| - back);
    assert indices[i] == kept[|kept| - back];
  }

  lemma BackwardIndices(ms: seq<nat>, max: int, n: nat, found: int, indices: seq<nat>)
    requires n > 0 && Backward(ms, true, Cap(max, n), n, found, indices)
    ensures found == |ms| && indices == LastN(Pick(ms, |ms| % n + 1, n).kept, Cap(max, n))
  {
    assert |ms| % 1 == 0;
  }

  /**
    The backward search with step `n` over T matches returns T and keeps, in ascending order, exactly
    match number T - j*n + 1 for j from T div n down to 1, or from the maximum, divided by the step, if
    that is less and not 0.
   */
  lemma BackwardPicks(ms: seq<nat>, max: int, n: nat, found: int, indices: seq<nat>)
    requires n > 0 && Backward(ms, true, Cap(max, n), n, found, indices)
    ensures found == |ms| && |indices| == (if 0 < Cap(max, n) < |ms| / n then Cap(max, n) else |ms| / n)
    ensures forall i | 0 <= i < |indices| :: CountedBack(ms, n, indices, i)
  {
    BackwardIndices(ms, max, n, found, indices);
    PickCount(ms, n);
    hide CountedBack, Pick, Backward, Cap;
    forall i | 0 <= i < |indices|
      ensures CountedBack(ms, n, indices, i)
    {
      LastPickAt(ms, Cap(max, n), n, i);
    }
  }

  lemma MulMonotone(k: nat, c: nat, n: nat)
    requires k <= c
    ensures k * n <= c * n
  {
    assert (c - k) * n >= 0 && (c - k) * n == c * n - k * n;
  }

  /** The bound that the maximum sets, from the number kept. */
  lemma KeptWithin(total: nat, max: int, n: nat, k: nat)
    requires n > 0 && max > 0 && k == (if 0 < Cap(max, n) < total / n then Cap(max, n) else total / n)
    ensures k * n > max <==> max < n <= total
  {
    CapBounds(max, n);
    AtLeast(total, 1, n);
    hide Cap;
    var c := Cap(max, n);
    if c > 0 {
      MulMonotone(k, c, n);
      MulBound(c, n);
    } else {
      MulBound(k, n);
    }
  }

  /** What is kept backwards stays within the maximum, unless that is smaller than the step: then it is ignored. */
  lemma BackwardMaximum(ms: seq<nat>, max: int, n: nat, found: int, indices: seq<nat>)
    requires n > 0 && max > 0 && Backward(ms, true, Cap(max, n), n, found, indices)
    ensures |indices| * n > max <==> max < n <= |ms|
  {
    hide Backward, CountedBack, Cap;
    BackwardPicks(ms, max, n, found, indices);
    KeptWithin(|ms|, max, n, |indices|);
  }

  /** Two matches, step 2 and a maximum of 1: the first match is kept, though counting to it takes two. */
  lemma MaximumIgnored(a: nat, b: nat, indices: seq<nat>)
    requires Backward([a, b], true, Cap(1, 2), 2, 2, indices)
    ensures |indices| == 1
  {
    BackwardPicks([a, b], 1, 2, 2, indices);
  }

  lemma CapOf(k: nat, n: nat)
    requires k > 0 && n > 0
    ensures Cap(k * n, n) == k
  {
    Quotient(k * n, n, k, 0);
    MulBound(k, n);
  }

  /** The division by the step rounds down. */
  lemma CapBounds(max: int, every: int)
    ensures max > 0 && every > 1 ==> Cap(max, every) * every <= max < (Cap(max, every) + 1) * every
    ensures max <= 0 || every <= 1 ==> Cap(max, every) == max
  {
    if max > 0 && every > 1 {
      assert max == (max / every) * every + max % every;
      assert (max / every + 1) * every == (max / every) * every + every;
    }
  }

  lemma ForwardCount(ms: seq<nat>, n: nat, r: nat)
    requires n > 0 && r <= |ms|
    ensures |Pick(ms[..r], n, n).kept| == r / n
  {
    PickForm(ms[..r], n, n);
    var c := |Pick(ms[..r], n, n).kept|;
    assert c * n <= r < n + c * n;
    Quotient(r, n, c, r - c * n);
  }

  lemma AtLeast(a: nat, k: nat, n: nat)
    requires n > 0
    ensures a / n >= k <==> a >= k * n
    ensures (k * n) / n == k
  {
    Quotient(k * n, n, k, 0);
    assert a == (a / n) * n + a % n;
    MulBound(k - a / n, n);
    assert (k - a / n) * n == k * n - (a / n) * n;
  }

  /** How many matches the forward search looks at. */
  lemma ForwardFound(ms: seq<nat>, k: int, n: nat, found: int, indices: seq<nat>)
    requires n > 0 && Forward(ms, true, k, n, found, indices)
    ensures k < 0 ==> found == |ms|
    ensures k == 0 ==> found == if |ms| > 0 then 1 else 0
    ensures k > 0 ==> found == if k * n < |ms| then k * n else |ms|
  {
    hide Pick;
    if k > 0 {
      if 0 < found < |ms| {
        ForwardCount(ms, n, found);
        AtLeast(found, k, n);
      }
      MulBound(k, n);
      if k * n <= |ms| {
        ForwardCount(ms, n, k * n);
        AtLeast(k * n, k, n);
        assert k * n < found ==> Count(ms, true, n, k * n) < k;
      }
    } else if k == 0 {
      assert found > 1 ==> Count(ms, true, n, 1) < 0;
    }
  }

  /**
    The forward search with step `n` looks at all matches, at the first (maximum, divided by the step)
    times n of them, or, if that is 0, at one; and it keeps match number n, 2n, ... of those.
   */
  lemma ForwardPicks(ms: seq<nat>, max: int, n: nat, found: int, indices: seq<nat>)
    requires n > 0 && Forward(ms, true, Cap(max, n), n, found, indices)
    ensures var k := Cap(max, n);
      && found == (if k > 0 && k * n < |ms| then k * n else if k == 0 && |ms| > 0 then 1 else |ms|)
      && |indices| == found / n && forall j | 0 <= j < |indices| :: 0 <= n - 1 + j * n < |ms| && indices[j] == ms[n - 1 + j * n]
  {
    ForwardFound(ms, Cap(max, n), n, found, indices);
    hide Cap;
    ForwardCount(ms, n, found);
    PickForm(ms[..found], n, n);
  }

  /** The call itself, over the whole file backwards. */
  method FindBackward(disk: Disk, path: string, pat: string, k: nat, n: nat) returns (rc: int, indices: seq<nat>)
    requires path in disk && disk[path] != [] && |pat| <= 65535 && NoNul(pat) && k > 0 && n > 0
    ensures var ms := Matches(disk[path], pat, 0, |disk[path]|);
      && rc == |ms| && |indices| == (if k < |ms| / n then k else |ms| / n)
      && forall i | 0 <= i < |indices| :: CountedBack(ms, n, indices, i)
  {
    hide Matches, CountedBack, Pick;
    rc, indices := FindInFile(disk, path, Some(pat), true, k * n, n, -|disk[path]|);
    BackwardPicks(Matches(disk[path], pat, 0, |disk[path]|), k * n, n, rc, indices);
    CapOf(k, n);
  }
}
