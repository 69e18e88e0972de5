/**
  `LittleFSWrapper::readFile`: chunked reading with an optional search for a string, and the string
  search it is built on.

  A file is the sequence of its characters.  The readback callback with the variables it captures is
  a function from a state and a chunk to the new state and whether to go on.
 */
module FileSearch {
  import opened Options

  const NUL: char := '\0'

  type Disk = map<string, string>

  // LFS_ERR_NOENT in the passthrough band for LittleFS errors
  const ERR_NOENT := -4500 - 2

  predicate NoNul(s: string) {
    forall i | 0 <= i < |s| :: s[i] != NUL
  }

  /** `strlen` of a buffer that ends in a NUL behind its last character. */
  function CLen(s: string): (n: nat)
    ensures n <= |s| && NoNul(s[..n]) && (n < |s| ==> s[n] == NUL)
  {
    if s == [] || s[0] == NUL then 0 else 1 + CLen(s[1..])
  }

  predicate OccursAt(s: string, pat: string, k: int) {
    0 <= k && k + |pat| <= |s| && s[k..k + |pat|] == pat
  }

  lemma OccursIff(text: string, pat: string, n: nat, p: nat)
    requires p <= |pat| && n + p <= |text| && forall i | 0 <= i < p :: text[n + i] == pat[i]
    requires p < |pat| ==> n + p == |text| || text[n + p] != pat[p]
    ensures p == |pat| <==> OccursAt(text, pat, n)
  {
    if p == |pat| {
      assert text[n..n + p] == pat;
    } else if n + |pat| <= |text| {
      assert text[n..n + |pat|][p] != pat[p];
    }
  }

  /** How far the pattern agrees with the text from `n` on: the inner loop of `__strstr`. */
  method Agreement(str: string, substr: string, n: nat) returns (p: nat)
    requires n <= CLen(str) && NoNul(substr)
    ensures p <= |substr|
    ensures p == |substr| <==> OccursAt(str[..CLen(str)], substr, n)
  {
    p := 0;
    ghost var z := CLen(str);
    while n + p < |str| && str[n + p] != NUL && p < |substr| && str[n + p] == substr[p]
      invariant p <= |substr| && n + p <= z
      invariant forall i | 0 <= i < p :: str[n + i] == substr[i]
    {
      p := p + 1;
    }
    assert n + p < z ==> str[..z][n + p] != NUL;
    OccursIff(str[..z], substr, n, p);
  }

  /** `__strstr`: the first position below `len` at which the pattern occurs before the text's NUL. */
  method StrStr(str: string, substr: string, len: nat) returns (n: int)
    requires NoNul(substr)
    ensures var text := str[..CLen(str)];
      if n == -1 then substr == [] || forall k | 0 <= k < len && k < |text| :: !OccursAt(text, substr, k)
      else 0 <= n < len && n < |text| && OccursAt(text, substr, n) && forall k | 0 <= k < n :: !OccursAt(text, substr, k)
  {
    ghost var text := str[..CLen(str)];
    if CLen(str) == 0 || |substr| == 0 {
      return -1;
    }
    n := 0;
    while n < |str| && str[n] != NUL && n < len
      invariant 0 <= n <= CLen(str)
      invariant forall k | 0 <= k < n :: !OccursAt(text, substr, k)
    {
      var p := Agreement(str, substr, n);
      if p == |substr| {
        return;
      }
      n := n + 1;
    }
    assert n < |str| && str[n] == NUL ==> n == CLen(str);
    n := -1;
  }

  // ----- the sliding window -----

  function Zeros(n: nat): (z: string)
    ensures |z| == n && forall i | 0 <= i < n :: z[i] == NUL
  {
    seq(n, _ => NUL)
  }

  /** The last `m` characters seen, in a window that started out zeroed. */
  function Tail(m: nat, seen: string): (w: string)
    ensures |w| == m
  {
    if |seen| >= m then seen[|seen| - m..] else Zeros(m - |seen|) + seen
  }

  lemma TailShift(m: nat, seen: string, c: char)
    requires m > 0
    ensures Tail(m, seen)[1..] + [c] == Tail(m, seen + [c])
  {
  }

  /** The pattern ends at position `k` of the data. */
  predicate EndsAt(data: string, pat: string, k: int) {
    OccursAt(data, pat, k + 1 - |pat|)
  }

  lemma TailMatches(data: string, pat: string, k: nat)
    requires pat != [] && NoNul(pat) && k < |data|
    ensures Tail(|pat|, data[..k + 1]) == pat <==> EndsAt(data, pat, k)
  {
    var seen := data[..k + 1];
    if |seen| >= |pat| {
      assert seen[|seen| - |pat|..] == data[k + 1 - |pat|..k + 1];
    } else {
      assert Tail(|pat|, seen)[0] == NUL;
    }
  }

  /** On a window as long as the pattern, the search can only succeed at 0, by equality. */
  lemma WindowSearch(w: string, pat: string, n: int)
    requires pat != [] && NoNul(pat) && |w| == |pat|
    requires var text := w[..CLen(w)];
      if n == -1 then pat == [] || forall k | 0 <= k < |pat| && k < |text| :: !OccursAt(text, pat, k)
      else 0 <= n < |pat| && n < |text| && OccursAt(text, pat, n) && forall k | 0 <= k < n :: !OccursAt(text, pat, k)
    ensures n == if w == pat then 0 else -1
  {
    assert w[0..|w|] == w && w[..|w|] == w;
    assert w == pat ==> CLen(w) == |w| && OccursAt(w[..CLen(w)], pat, 0);
  }

  /** The first position from `from` on at which the pattern ends, or the length. */
  function FirstEnd(data: string, pat: string, from: nat): (k: nat)
    requires from <= |data|
    ensures from <= k <= |data| && (k < |data| ==> EndsAt(data, pat, k))
    ensures forall j | from <= j < k :: !EndsAt(data, pat, j)
    decreases |data| - from
  {
    if from == |data| || EndsAt(data, pat, from) then from else FirstEnd(data, pat, from + 1)
  }

  lemma {:induction false} FirstEndIs(data: string, pat: string, from: nat, k: nat)
    requires from <= k <= |data| && (k < |data| ==> EndsAt(data, pat, k))
    requires forall j | from <= j < k :: !EndsAt(data, pat, j)
    ensures FirstEnd(data, pat, from) == k
    decreases k - from
  {
    if from < k {
      FirstEndIs(data, pat, from + 1, k);
    }
  }

  // ----- feeding a callback chunk by chunk -----

  datatype Fed<S> = Fed(state: S, used: nat, stopped: bool)

  function Feed<S>(cb: (S, string) -> (S, bool), s: S, data: string, size: nat): (r: Fed<S>)
    requires size > 0
    ensures r.used <= |data| && (!r.stopped ==> r.used == |data|)
    decreases |data|
  {
    if data == [] then Fed(s, 0, false)
    else
      var c := if size < |data| then size else |data|;
      var (t, more) := cb(s, data[..c]);
      if !more then Fed(t, c, true)
      else
        var r := Feed(cb, t, data[c..], size);
        r.(used := c + r.used)
  }

  /** `i` is a whole number of chunks. */
  ghost predicate Aligned(i: int, size: nat)
    requires size > 0
    decreases i
  {
    i == 0 || (i >= size && Aligned(i - size, size))
  }

  /** One more chunk, at most, behind whole chunks. */
  lemma {:induction false} FeedOn<S>(cb: (S, string) -> (S, bool), s: S, data: string, i: nat, size: nat)
    requires size > 0 && Aligned(i, size) && i < |data| <= i + size
    requires !Feed(cb, s, data[..i], size).stopped
    ensures var (t, more) := cb(Feed(cb, s, data[..i], size).state, data[i..]);
      Feed(cb, s, data, size) == Fed(t, |data|, !more)
    decreases i
  {
    if i == 0 {
      assert data[..0] == [] && data[0..] == data && data[..|data|] == data && data[|data|..] == [];
    } else {
      var (t, more) := cb(s, data[..size]);
      assert data[..i][..size] == data[..size] && data[..i][size..] == data[size..][..i - size];
      assert data[size..][i - size..] == data[i..];
      FeedOn(cb, t, data[size..], i - size, size);
    }
  }

  /** Stopping at a chunk boundary: what lies behind does not matter. */
  lemma {:induction false} FeedStops<S>(cb: (S, string) -> (S, bool), s: S, data: string, i: nat, size: nat)
    requires size > 0 && i <= |data| && (Aligned(i, size) || i == |data|)
    requires Feed(cb, s, data[..i], size).stopped
    ensures Feed(cb, s, data, size) == Feed(cb, s, data[..i], size)
    decreases i
  {
    if i < |data| {
      assert i >= size;
      var (t, more) := cb(s, data[..size]);
      assert data[..i][..size] == data[..size] && data[..i][size..] == data[size..][..i - size];
      if more {
        FeedStops(cb, t, data[size..], i - size, size);
      }
    } else {
      assert data[..i] == data;
    }
  }

  function Collect(pieces: seq<string>, d: string): (seq<string>, bool) {
    (pieces + [d], true)
  }

  /** Piece number `k` of the data. */
  ghost predicate IsPiece(piece: string, data: string, k: nat, size: nat) {
    k * size <= |data| && piece == if k * size + size < |data| then data[k * size..k * size + size] else data[k * size..]
  }

  lemma PieceShift(piece: string, data: string, k: nat, size: nat)
    requires 0 < size <= |data| && IsPiece(piece, data[size..], k, size)
    ensures IsPiece(piece, data, k + 1, size)
  {
    assert (k + 1) * size == k * size + size;
    assert data[size..][k * size..] == data[k * size + size..];
    if k * size + size < |data| - size {
      assert data[size..][k * size..k * size + size] == data[k * size + size..k * size + 2 * size];
    }
  }

  /** So many pieces make up the data, none of them empty. */
  ghost predicate PieceCount(n: int, length: nat, size: nat) {
    n >= 0 && (n - 1) * size < length <= n * size
  }

  lemma CollectOne(kept: seq<string>, data: string, size: nat)
    requires size > 0 && data != []
    ensures var c := if size < |data| then size else |data|;
      Feed(Collect, kept, data, size).state == Feed(Collect, kept + [data[..c]], data[c..], size).state
  {
  }

  lemma {:induction false} Collected(kept: seq<string>, data: string, size: nat)
    requires size > 0
    ensures var all := Feed(Collect, kept, data, size).state;
      kept <= all && PieceCount(|all| - |kept|, |data|, size)
    decreases |data|
  {
    if data != [] {
      var c := if size < |data| then size else |data|;
      Collected(kept + [data[..c]], data[c..], size);
      CollectOne(kept, data, size);
      var n := |Feed(Collect, kept, data, size).state| - |kept|;
      assert n * size == (n - 1) * size + size && (n - 1) * size == (n - 1 - 1) * size + size;
    }
  }

  lemma FirstCollected(kept: seq<string>, data: string, size: nat)
    requires size > 0 && data != []
    ensures var all := Feed(Collect, kept, data, size).state;
      |all| > |kept| && IsPiece(all[|kept|], data, 0, size)
  {
    hide Feed, IsPiece;
    var c := if size < |data| then size else |data|;
    CollectOne(kept, data, size);
    var more := kept + [data[..c]];
    Collected(more, data[c..], size);
    assert more[|kept|] == data[..c];
    FirstPiece(data, size);
  }

  /** A callback gets the data in order, in pieces of the buffer's size and one shorter one at the end. */
  lemma {:induction false} FeedPieces(kept: seq<string>, data: string, size: nat, k: nat)
    requires size > 0
    ensures var all := Feed(Collect, kept, data, size).state;
      && |kept| <= |all| && PieceCount(|all| - |kept|, |data|, size)
      && (k < |all| - |kept| ==> IsPiece(all[|kept| + k], data, k, size))
    decreases |data|
  {
    hide Feed, IsPiece, PieceCount;
    Collected(kept, data, size);
    var all := Feed(Collect, kept, data, size).state;
    if data == [] {
      NoPieces(|all| - |kept|, size);
    } else if k == 0 {
      FirstCollected(kept, data, size);
    } else if k < |all| - |kept| {
      SizeOfFirst(|all| - |kept|, |data|, size);
      CollectOne(kept, data, size);
      FeedPieces(kept + [data[..size]], data[size..], size, k - 1);
      PieceShift(all[|kept| + k], data, k - 1, size);
    }
  }

  lemma NoPieces(n: int, size: nat)
    requires PieceCount(n, 0, size) && size > 0
    ensures n == 0
  {
    assert n > 0 ==> (n - 1) * size >= 0;
  }

  lemma FirstPiece(data: string, size: nat)
    ensures IsPiece(data[..if size < |data| then size else |data|], data, 0, size)
  {
    assert data[..|data|] == data[0..];
  }

  /** With more than one piece, the first one is full. */
  lemma SizeOfFirst(n: int, length: nat, size: nat)
    requires n > 1 && PieceCount(n, length, size)
    ensures size <= length
  {
    assert (n - 2) * size >= 0 && (n - 1) * size == (n - 2) * size + size;
  }

  // ----- readFile -----

  function From(file: string, offset: nat): string {
    if offset < |file| then file[offset..] else []
  }

  /** The search runs only with a non-empty pattern and memory for its window. */
  predicate Searching(pattern: Option<string>, heapOk: bool) {
    pattern.Some? && pattern.value != [] && heapOk
  }

  ghost predicate Unstopping<S(!new)>(cb: (S, string) -> (S, bool)) {
    forall s, d :: cb(s, d).1
  }

  lemma {:induction false} NeverStopped<S(!new)>(cb: (S, string) -> (S, bool), s: S, data: string, size: nat)
    requires size > 0 && Unstopping(cb)
    ensures !Feed(cb, s, data, size).stopped
    decreases |data|
  {
    if data != [] {
      var c := if size < |data| then size else |data|;
      NeverStopped(cb, cb(s, data[..c]).0, data[c..], size);
    }
  }

  lemma FeedStep<S>(cb: (S, string) -> (S, bool), s0: S, s: S, data: string, n: nat, c: nat, size: nat)
    requires size > 0 && Aligned(n, size) && 0 < c <= size && n + c <= |data|
    requires Feed(cb, s0, data[..n], size) == Fed(s, n, false)
    ensures var (t, more) := cb(s, data[n..n + c]);
      Feed(cb, s0, data[..n + c], size) == Fed(t, n + c, !more)
  {
    var part := data[..n + c];
    assert part[..n] == data[..n] && part[n..] == data[n..n + c];
    FeedOn(cb, s0, part, n, size);
  }

  method WindowIs(window: string, pat: string) returns (hit: bool)
    requires pat != [] && NoNul(pat) && |window| == |pat|
    ensures hit <==> window == pat
  {
    var matchPos := StrStr(window, pat, |pat|);
    WindowSearch(window, pat, matchPos);
    hit := matchPos != -1;
  }

  lemma Slide(data: string, pat: string, k: nat)
    requires pat != [] && NoNul(pat) && k < |data|
    ensures var w := Tail(|pat|, data[..k])[1..] + [data[k]];
      w == Tail(|pat|, data[..k + 1]) && (w == pat <==> EndsAt(data, pat, k))
  {
    TailShift(|pat|, data[..k], data[k]);
    assert data[..k] + [data[k]] == data[..k + 1];
    TailMatches(data, pat, k);
  }

  /**
    The search through one chunk: the window slides over it character by character.  The match
    position that `__strstr` reports can only be 0, so the chunk is cut at the character itself.
   */
  method ScanChunk(ghost data: string, ghost base: nat, window0: string, buffer: string, pat: string)
    returns (window: string, at: nat)
    requires pat != [] && NoNul(pat) && base + |buffer| <= |data| && buffer == data[base..base + |buffer|]
    requires window0 == Tail(|pat|, data[..base])
    ensures at <= |buffer| && (at < |buffer| ==> EndsAt(data, pat, base + at))
    ensures forall j | base <= j < base + at :: !EndsAt(data, pat, j)
    ensures at == |buffer| ==> window == Tail(|pat|, data[..base + |buffer|])
  {
    hide Tail, EndsAt, NoNul;
    window, at := window0, 0;
    var hit := false;
    while at < |buffer| && !hit
      invariant at <= |buffer| && (!hit ==> window == Tail(|pat|, data[..base + at]))
      invariant hit ==> at < |buffer| && EndsAt(data, pat, base + at)
      invariant forall j | base <= j < base + at :: !EndsAt(data, pat, j)
      decreases !hit, |buffer| - at
    {
      Slide(data, pat, base + at);
      window := window[1..] + [buffer[at]];
      hit := WindowIs(window, pat);
      if !hit {
        at := at + 1;
      }
    }
  }

  /** How far the reading loop has got: `n` bytes fed, the search clean up to there. */
  ghost predicate Reading<S>(cb: (S, string) -> (S, bool), s0: S, data: string, size: nat, pat: string, searching: bool,
                             n: int, s: S, window: string, more: bool, found: bool)
    requires size > 0
  {
    && 0 <= n <= |data|
    && Feed(cb, s0, data[..n], size).state == s && Feed(cb, s0, data[..n], size).used == n
    && (searching ==> forall j | 0 <= j < n :: !EndsAt(data, pat, j))
    && (more ==> !found && !Feed(cb, s0, data[..n], size).stopped && (searching ==> window == Tail(|pat|, data[..n])))
    && (!more && !found ==> Feed(cb, s0, data[..n], size).stopped && (Aligned(n, size) || n == |data|))
    && (found ==> searching && n < |data| && EndsAt(data, pat, n))
    && (found ==> !Feed(cb, s0, data[..n], size).stopped || !Aligned(n, size))
  }

  lemma {:induction false} BetweenChunks(i: nat, k: nat, size: nat)
    requires size > 0 && Aligned(i, size) && 0 < k < size
    ensures !Aligned(i + k, size)
    decreases i
  {
    if i > 0 {
      BetweenChunks(i - size, k, size);
    }
  }

  method ReadChunk<S>(cb: (S, string) -> (S, bool), ghost s0: S, ghost data: string, size: nat, pat: string, searching: bool,
                      n0: nat, s1: S, window0: string, buffer: string)
    returns (n: nat, s: S, window: string, more: bool, found: bool)
    requires size > 0 && Aligned(n0, size) && Reading(cb, s0, data, size, pat, searching, n0, s1, window0, true, false)
    requires 0 < |buffer| <= size && n0 + |buffer| <= |data| && buffer == data[n0..n0 + |buffer|]
    requires |buffer| < size ==> n0 + |buffer| == |data|
    requires searching ==> pat != [] && NoNul(pat)
    ensures Reading(cb, s0, data, size, pat, searching, n, s, window, more, found)
    ensures more ==> n == n0 + |buffer|
  {
    hide Feed, EndsAt, Tail, NoNul;
    window, s, more, found := window0, s1, false, false;
    var at := |buffer|;
    if searching {
      window, at := ScanChunk(data, n0, window, buffer, pat);
    }
    n := n0 + at;
    if at > 0 {
      FeedStep(cb, s0, s1, data, n0, at, size);
      assert buffer[..at] == data[n0..n0 + at];
      var step := cb(s, buffer[..at]);
      s, more := step.0, step.1;
    }
    found := at < |buffer|;
    if found && at > 0 {
      BetweenChunks(n0, at, size);
    }
    more := more && !found;
  }

  /** The callback let the search come to `k`; what it says of the piece in which the match ends is not asked. */
  ghost predicate Reached<S>(r: Fed<S>, k: nat, size: nat)
    requires size > 0
  {
    !r.stopped || (r.used == k && !Aligned(k, size))
  }

  method ReadFile<S(!new)>(disk: Disk, path: string, size: nat, cb: (S, string) -> (S, bool), s0: S, offset: nat,
                     pattern: Option<string>, heapOk: bool)
    returns (n: int, s: S, found: bool)
    requires size > 0 && (pattern.Some? ==> size <= 65535 && |pattern.value| <= 65535 && NoNul(pattern.value))
    ensures path !in disk ==> n == ERR_NOENT && s == s0 && !found
    ensures path in disk && !Searching(pattern, heapOk) ==>
      var r := Feed(cb, s0, From(disk[path], offset), size);
      n == r.used && s == r.state && !found
    ensures path in disk && Searching(pattern, heapOk) ==>
      var data := From(disk[path], offset);
      var k := FirstEnd(data, pattern.value, 0);
      var r := Feed(cb, s0, data[..k], size);
      n == r.used && s == r.state && (found <==> k < |data| && Reached(r, k, size))
    ensures path in disk && Searching(pattern, heapOk) && Unstopping(cb) ==>
      var data := From(disk[path], offset);
      var k := FirstEnd(data, pattern.value, 0);
      n == k && s == Feed(cb, s0, data[..k], size).state && (found <==> k < |data|)
  {
    n, s, found := ERR_NOENT, s0, false;
    if path in disk {
      var searching := Searching(pattern, heapOk);
      var pat := if pattern.Some? then pattern.value else [];
      var window := if searching then Zeros(|pat|) else [];
      ghost var data := From(disk[path], offset);
      var filesize := if offset < |disk[path]| then |disk[path]| - offset else 0;
      var i, more := 0, true;
      n := 0;
      ReadingStart(cb, s0, data, size, pat, searching, window);
      while i < filesize && more
        invariant 0 <= i && Aligned(i, size) && Reading(cb, s0, data, size, pat, searching, n, s, window, more, found)
        invariant more ==> n == if i < filesize then i else filesize
      {
        hide Reading, EndsAt, NoNul;
        var chunk := if size < filesize - i then size else filesize - i;
        var buffer := disk[path][offset + i..offset + i + chunk];
        n, s, window, more, found := ReadChunk(cb, s0, data, size, pat, searching, n, s, window, buffer);
        i := i + size;
      }
      ReadingEnd(cb, s0, data, size, pat, searching, n, s, window, more, found);
    }
  }

  lemma ReadingStart<S>(cb: (S, string) -> (S, bool), s0: S, data: string, size: nat, pat: string, searching: bool, window: string)
    requires size > 0 && (searching ==> window == Zeros(|pat|))
    ensures Reading(cb, s0, data, size, pat, searching, 0, s0, window, true, false)
  {
    assert data[..0] == [];
    if searching {
      assert Tail(|pat|, []) == window;
    }
  }

  lemma ReadingEnd<S(!new)>(cb: (S, string) -> (S, bool), s0: S, data: string, size: nat, pat: string, searching: bool,
                      n: int, s: S, window: string, more: bool, found: bool)
    requires size > 0 && Reading(cb, s0, data, size, pat, searching, n, s, window, more, found) && (more ==> n == |data|)
    ensures !searching ==> var r := Feed(cb, s0, data, size); n == r.used && s == r.state && !found
    ensures searching ==>
      var k := FirstEnd(data, pat, 0);
      var r := Feed(cb, s0, data[..k], size);
      n == r.used && s == r.state && (found <==> k < |data| && Reached(r, k, size))
    ensures searching && Unstopping(cb) ==>
      var k := FirstEnd(data, pat, 0);
      n == k && s == Feed(cb, s0, data[..k], size).state && (found <==> k < |data|)
  {
    hide EndsAt, Feed, Tail;
    if !more && !found {
      FeedStops(cb, s0, data, n, size);
    } else if more {
      assert data[..n] == data;
    }
    if searching {
      var k := FirstEnd(data, pat, 0);
      if more || found {
        FirstEndIs(data, pat, 0, n);
      } else {
        assert n <= k;
        assert data[..k][..n] == data[..n];
        FeedStops(cb, s0, data[..k], n, size);
      }
      if Unstopping(cb) {
        NeverStopped(cb, s0, data[..n], size);
      }
    }
  }
}
