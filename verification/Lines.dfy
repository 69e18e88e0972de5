/**
  Lines and offsets in `LittleFSWrapper`: the lookups in both directions, the line index, and reading
  one line.
 */
module Lines {
  import opened Options
  import opened FileSearch
  import opened Finding

  const ERR_RANGE := -18
  const ERR_NOT_FOUND := -6

  // ----- what lines are -----

  function Newlines(s: string): nat {
    if s == [] then 0 else (if s[0] == '\n' then 1 else 0) + Newlines(s[1..])
  }

  /** Behind the `n`-th newline, or at the end if there are fewer. */
  function OffsetOf(s: string, n: nat): (o: nat)
    ensures o <= |s|
  {
    if n == 0 || s == [] then 0 else 1 + OffsetOf(s[1..], if s[0] == '\n' then n - 1 else n)
  }

  predicate IsLineStart(s: string, k: nat) {
    k == 0 || (k <= |s| && s[k - 1] == '\n')
  }

  /** Lines in the sense of the negative line numbers: an unterminated rest counts. */
  function LineCount(s: string): nat {
    Newlines(s) + if s != [] && s[|s| - 1] != '\n' then 1 else 0
  }

  lemma {:induction false} NewlinesConcat(a: string, b: string)
    ensures Newlines(a + b) == Newlines(a) + Newlines(b)
  {
    if a == [] {
      assert a + b == b;
    } else {
      assert (a + b)[1..] == a[1..] + b;
      NewlinesConcat(a[1..], b);
    }
  }

  /** The start of line `n` lies on line `n`. */
  lemma {:induction false} LineOfOffset(s: string, n: nat)
    requires n <= Newlines(s)
    ensures Newlines(s[..OffsetOf(s, n)]) == n
  {
    if n > 0 && s != [] {
      var m := if s[0] == '\n' then n - 1 else n;
      LineOfOffset(s[1..], m);
      assert s[..OffsetOf(s, n)][1..] == s[1..][..OffsetOf(s[1..], m)];
    }
  }

  /** The start of the line an offset lies on is the last line start up to it. */
  lemma {:induction false} OffsetOfLine(s: string, o: nat)
    requires o <= |s|
    ensures var start := OffsetOf(s, Newlines(s[..o]));
      start <= o && IsLineStart(s, start) && forall k | start < k <= o :: !IsLineStart(s, k)
  {
    if o > 0 {
      var rest := s[1..];
      assert s[..o][1..] == rest[..o - 1];
      OffsetOfLine(rest, o - 1);
      var m := Newlines(rest[..o - 1]);
      forall k | 1 < k <= o ensures IsLineStart(s, k) <==> IsLineStart(rest, k - 1) {
        assert s[k - 1] == rest[k - 2];
      }
      if s[0] != '\n' && m == 0 {
        assert OffsetOf(s, Newlines(s[..o])) == 0;
      }
    }
  }

  lemma {:induction false} OffsetPastEnd(s: string, n: nat)
    requires n > Newlines(s)
    ensures OffsetOf(s, n) == |s|
  {
    if s != [] {
      OffsetPastEnd(s[1..], if s[0] == '\n' then n - 1 else n);
    }
  }

  // ----- the callbacks -----

  /** The loop of the offset callback: where the newline count reaches the target, and the count. */
  function ScanFor(data: string, seen: int, target: int): (Option<nat>, int) {
    if data == [] then (None, seen)
    else
      var now := if data[0] == '\n' then seen + 1 else seen;
      if data[0] == '\n' && now >= target then (Some(0), now)
      else
        var (at, count) := ScanFor(data[1..], now, target);
        (if at.Some? then Some(at.value + 1) else None, count)
  }

  function Shift(r: (Option<nat>, int), i: nat): (Option<nat>, int) {
    (if r.0.Some? then Some(r.0.value + i) else None, r.1)
  }

  /** The captured `offset` and `newlinesFound` after a chunk, and whether to go on. */
  function OffsetCallback(target: int, st: (int, int), data: string): ((int, int), bool) {
    var (at, count) := ScanFor(data, st.1, target);
    if at.Some? then ((st.0 + at.value + 1, count), false) else ((st.0 + |data|, count), true)
  }

  /** The callback's loop as the source runs it. */
  method OffsetChunk(target: int, offset0: int, found0: int, data: string) returns (offset: int, found: int, more: bool)
    ensures ((offset, found), more) == OffsetCallback(target, (offset0, found0), data)
  {
    offset, found, more := offset0, found0, true;
    var i := 0;
    assert data[0..] == data;
    while i < |data| && more
      invariant 0 <= i <= |data|
      invariant more ==> offset == offset0 && ScanFor(data, found0, target) == Shift(ScanFor(data[i..], found, target), i)
      invariant !more ==> ((offset, found), false) == OffsetCallback(target, (offset0, found0), data)
      decreases more, |data| - i
    {
      assert data[i..][1..] == data[i + 1..];
      if data[i] == '\n' {
        found := found + 1;
        if found >= target {
          offset := offset + i + 1;
          more := false;
        }
      }
      i := i + 1;
    }
    if more {
      offset := offset + |data|;
    }
  }

  /** The captured `offsetcount` and `linenumber` after a chunk, and whether to go on. */
  function LineCallback(target: int, st: (int, int), data: string): ((int, int), bool) {
    var n := target - st.0;
    if data != [] && n < |data| then ((st.0, st.1 + (if n > 0 then Newlines(data[..n]) else 0)), false)
    else ((st.0 + |data|, st.1 + Newlines(data)), true)
  }

  method LineChunk(target: int, base: int, line0: int, data: string) returns (count: int, line: int, more: bool)
    ensures ((count, line), more) == LineCallback(target, (base, line0), data)
  {
    count, line, more := base, line0, true;
    var i := 0;
    while i < |data| && more
      invariant 0 <= i <= |data| && count == base && line == line0 + Newlines(data[..i])
      invariant more ==> i == 0 || target - base >= i
      invariant !more ==> i < |data| && (target - base == i || (i == 0 && target - base < 0))
      decreases more, |data| - i
    {
      if target <= base + i {
        more := false;
      } else {
        NewlinesConcat(data[..i], [data[i]]);
        assert data[..i] + [data[i]] == data[..i + 1];
        if data[i] == '\n' {
          line := line + 1;
        }
        i := i + 1;
      }
    }
    assert data[..|data|] == data;
    if more {
      count := count + |data|;
    }
  }

  /** One chunk in front: either the target is in it, or the rest is looked up with what is left. */
  lemma {:induction false} ScanInto(chunk: string, rest: string, seen: nat, target: nat)
    requires seen < target
    ensures var (at, count) := ScanFor(chunk, seen, target);
      if at.Some? then OffsetOf(chunk + rest, target - seen) == at.value + 1
      else 0 <= count < target && OffsetOf(chunk + rest, target - seen) == |chunk| + OffsetOf(rest, target - count)
  {
    if chunk == [] {
      assert chunk + rest == rest;
    } else {
      assert (chunk + rest)[1..] == chunk[1..] + rest;
      var now := if chunk[0] == '\n' then seen + 1 else seen;
      if now < target {
        ScanInto(chunk[1..], rest, now, target);
      }
    }
  }

  lemma {:induction false} OffsetFed(target: nat, offset: int, seen: nat, data: string, size: nat)
    requires size > 0 && seen < target
    ensures Feed((st: (int, int), d: string) => OffsetCallback(target, st, d), (offset, seen as int), data, size).state.0
         == offset + OffsetOf(data, target - seen)
    decreases |data|
  {
    var cb := (st: (int, int), d: string) => OffsetCallback(target, st, d);
    assert data == [] ==> OffsetOf(data, target - seen) == 0;
    hide OffsetOf, ScanFor;
    if data != [] {
      var c := if size < |data| then size else |data|;
      assert data == data[..c] + data[c..];
      ScanInto(data[..c], data[c..], seen, target);
      var (at, count) := ScanFor(data[..c], seen, target);
      if at.None? {
        OffsetFed(target, offset + c, count, data[c..], size);
      }
    }
  }

  /** The first `n` characters, or all, or none. */
  function Upto(s: string, n: int): (u: string)
    ensures u <= s && (0 <= n <= |s| ==> |u| == n) && (n < 0 ==> u == []) && (n > |s| ==> u == s)
  {
    if n <= 0 then [] else if n < |s| then s[..n] else s
  }

  lemma UptoChunk(data: string, c: nat, n: int)
    requires c <= |data|
    ensures n < c ==> Newlines(Upto(data, n)) == if n > 0 then Newlines(data[..c][..n]) else 0
    ensures n >= c ==> Newlines(Upto(data, n)) == Newlines(data[..c]) + Newlines(Upto(data[c..], n - c))
  {
    if n < c {
      assert n > 0 ==> data[..c][..n] == Upto(data, n);
    } else {
      NewlinesConcat(data[..c], Upto(data[c..], n - c));
      assert data[..c] + Upto(data[c..], n - c) == Upto(data, n);
    }
  }

  lemma {:induction false} LineFed(target: int, base: int, line: int, data: string, size: nat)
    requires size > 0
    ensures Feed((st: (int, int), d: string) => LineCallback(target, st, d), (base, line), data, size).state.1
         == line + Newlines(Upto(data, target - base))
    decreases |data|
  {
    hide Newlines, Upto;
    var cb := (st: (int, int), d: string) => LineCallback(target, st, d);
    NothingUpto(target - base);
    if data != [] {
      var c := if size < |data| then size else |data|;
      UptoChunk(data, c, target - base);
      if target - base >= c {
        LineFed(target, base + c, line + Newlines(data[..c]), data[c..], size);
      }
    }
  }

  lemma NothingUpto(n: int)
    ensures Newlines(Upto([], n)) == 0
  {
  }

  lemma {:induction false} CountFed(count: int, data: string, size: nat)
    requires size > 0
    ensures Feed((n: int, d: string) => (n + Newlines(d), true), count, data, size).state == count + Newlines(data)
    decreases |data|
  {
    var cb := (n: int, d: string) => (n + Newlines(d), true);
    if data != [] {
      var c := if size < |data| then size else |data|;
      CountFed(count + Newlines(data[..c]), data[c..], size);
      NewlinesConcat(data[..c], data[c..]);
      assert data[..c] + data[c..] == data;
    }
  }

  lemma {:induction false} TextFed(text: string, data: string, size: nat)
    requires size > 0
    ensures Feed((t: string, d: string) => (t + d, true), text, data, size).state == text + data
    decreases |data|
  {
    var cb := (t: string, d: string) => (t + d, true);
    if data != [] {
      var c := if size < |data| then size else |data|;
      TextFed(text + data[..c], data[c..], size);
      assert text + data[..c] + data[c..] == text + data;
    }
  }

  // ----- the lookups -----

  lemma FromStart(file: string)
    ensures From(file, 0) == file
  {
  }

  method TotalLines(disk: Disk, path: string) returns (total: int)
    ensures total == if path in disk then LineCount(disk[path]) else ERR_NOENT
  {
    var rc, count, _ := ReadFile(disk, path, 250, (n: int, d: string) => (n + Newlines(d), true), 0, 0, None, true);
    total := rc;
    if path in disk {
      var file := disk[path];
      FromStart(file);
      CountFed(0, file, 250);
      total := count;
      if |file| > 0 {
        var cb := (c: char, d: string) => (if |d| > 0 then d[0] else c, true);
        var _, last, _ := ReadFile(disk, path, 1, cb, '\n', |file| - 1, None, true);
        assert From(file, |file| - 1) == [file[|file| - 1]];
        LastFed(file[|file| - 1]);
        if last != '\n' {
          total := total + 1;
        }
      }
    }
  }

  lemma LastFed(c: char)
    ensures Feed((k: char, d: string) => (if |d| > 0 then d[0] else k, true), '\n', [c], 1).state == c
  {
    assert [c][..1] == [c] && [c][1..] == [];
  }

  /** `getOffsetFromLineNumber`; line 0 is not looked up at all. */
  method GetOffsetFromLineNumber(disk: Disk, path: string, line: int) returns (offset: int)
    ensures line == 0 ==> offset == 0
    ensures path !in disk && line != 0 ==> offset == ERR_NOENT
    ensures path in disk && line >= 0 ==> offset == OffsetOf(disk[path], line)
    ensures path in disk && line < 0 ==>
      offset == if LineCount(disk[path]) + line < 0 then ERR_RANGE else OffsetOf(disk[path], LineCount(disk[path]) + line)
  {
    var n := line;
    if line < 0 {
      var total := TotalLines(disk, path);
      if total < 0 {
        return total;
      }
      n := total + line;
      if n < 0 {
        return ERR_RANGE;
      }
    }
    offset := 0;
    if n > 0 {
      var rc, st, _ := ReadFile(disk, path, 250, (st: (int, int), d: string) => OffsetCallback(n, st, d), (0, 0), 0, None, true);
      if rc < 0 {
        return rc;
      }
      FromStart(disk[path]);
      OffsetFed(n, 0, 0, disk[path], 250);
      offset := st.0;
    }
  }

  /** `getLineNumberFromOffset`; a negative offset counts from the end. */
  method GetLineNumberFromOffset(disk: Disk, path: string, offset: int) returns (line: int)
    ensures path !in disk ==> line == ERR_NOENT
    ensures path in disk ==>
      line == Newlines(Upto(disk[path], if offset < 0 then |disk[path]| + offset else offset))
  {
    if path !in disk {
      return ERR_NOENT;
    }
    var at := if offset < 0 then |disk[path]| + offset else offset;
    line := 0;
    if at > 0 {
      var rc, st, _ := ReadFile(disk, path, 250, (st: (int, int), d: string) => LineCallback(at, st, d), (0, 0), 0, None, true);
      FromStart(disk[path]);
      LineFed(at, 0, 0, disk[path], 250);
      line := st.1;
    }
  }

  // ----- the line index -----

  lemma {:induction false} SkipLine(data: string, k: nat, n: nat)
    requires k < |data| && data[k] == '\n' && (forall j | 0 <= j < k :: data[j] != '\n')
    ensures Newlines(data) == 1 + Newlines(data[k + 1..])
    ensures n > 0 ==> OffsetOf(data, n) == k + 1 + OffsetOf(data[k + 1..], n - 1)
    ensures n == 1 ==> OffsetOf(data, n) == k + 1
  {
    if k > 0 {
      assert data[1..][k - 1] == data[k] && data[1..][k..] == data[k + 1..];
      SkipLine(data[1..], k - 1, n);
    }
  }

  lemma {:induction false} NoLine(data: string)
    requires forall j | 0 <= j < |data| :: data[j] != '\n'
    ensures Newlines(data) == 0
  {
    if data != [] {
      NoLine(data[1..]);
    }
  }

  lemma NewlineEnds(data: string, k: nat)
    requires k < |data|
    ensures EndsAt(data, "\n", k) <==> data[k] == '\n'
  {
    assert data[k..k + 1] == [data[k]];
  }

  /** `FirstEnd` of a newline is the first newline. */
  lemma FirstNewline(data: string)
    ensures var k := FirstEnd(data, "\n", 0);
      && (k < |data| ==> data[k] == '\n') && (forall j | 0 <= j < k :: data[j] != '\n')
  {
    var k := FirstEnd(data, "\n", 0);
    forall j | 0 <= j < |data| ensures EndsAt(data, "\n", j) <==> data[j] == '\n' {
      NewlineEnds(data, j);
    }
  }

  /** The matches of a newline are the ends of the lines. */
  lemma {:induction false} NewlineMatches(file: string, from: nat, i: nat)
    requires from <= |file|
    ensures |Matches(file, "\n", from, |file|)| == Newlines(file[from..])
    ensures i < |Matches(file, "\n", from, |file|)| ==>
      Matches(file, "\n", from, |file|)[i] + 1 == from + OffsetOf(file[from..], i + 1)
    decreases |file| - from
  {
    hide FileSearch.FirstEnd, FileSearch.EndsAt, OffsetOf, Newlines;
    var data := file[from..];
    FirstNewline(data);
    var k := FirstEnd(data, "\n", 0);
    if k == |data| {
      NoLine(data);
    } else {
      assert data[k + 1..] == file[from + k + 1..];
      SkipLine(data, k, i + 1);
      NewlineMatches(file, from + k + 1, if i > 0 then i - 1 else 0);
      assert Matches(file, "\n", from, |file|) == [from + k] + Matches(file, "\n", from + k + 1, |file|);
    }
  }

  /** Looking up a line from the start of another one. */
  lemma {:induction false} OffsetAdd(s: string, n: nat, j: nat)
    ensures OffsetOf(s, n + j) == OffsetOf(s, n) + OffsetOf(s[OffsetOf(s, n)..], j)
    ensures n <= Newlines(s) ==> Newlines(s[OffsetOf(s, n)..]) == Newlines(s) - n
    ensures n > Newlines(s) ==> s[OffsetOf(s, n)..] == []
  {
    if n == 0 || s == [] {
      assert s[0..] == s;
    } else {
      var m := if s[0] == '\n' then n - 1 else n;
      OffsetAdd(s[1..], m, j);
      assert s[OffsetOf(s, n)..] == s[1..][OffsetOf(s[1..], m)..];
    }
  }

  lemma {:induction false} PickAll(ms: seq<nat>)
    ensures Pick(ms, 1, 1) == Picked(|ms| + 1, ms)
  {
    if ms != [] {
      PickAll(ms[..|ms| - 1]);
    }
  }

  /** How many newlines the index looks at. */
  function Taken(ms: seq<nat>, max: int): (n: nat)
    ensures n <= |ms|
  {
    if max < 0 || |ms| == 0 then |ms| else if max == 0 then 1 else if max < |ms| then max else |ms|
  }

  /** With step 1, the forward search keeps as many matches as the maximum allows, and at least one. */
  lemma ForwardAll(ms: seq<nat>, cap: int, found: int, indices: seq<nat>)
    requires Forward(ms, true, cap, 1, found, indices)
    ensures indices == ms[..Taken(ms, cap)]
  {
    PickAll(ms[..found]);
    forall r | 0 <= r <= |ms| ensures Count(ms, true, 1, r) == r {
      PickAll(ms[..r]);
    }
    if found > 1 && cap >= 0 {
      assert Count(ms, true, 1, found - 1) < cap;
    }
  }

  function Shifted(ms: seq<nat>): (r: seq<nat>)
    ensures |r| == |ms| && forall i | 0 <= i < |ms| :: r[i] == ms[i] + 1
  {
    if ms == [] then [] else [ms[0] + 1] + Shifted(ms[1..])
  }

  /** The index made of a starting offset and the newlines behind it. */
  function LineIndex(size: nat, offset: nat, ms: seq<nat>): seq<nat> {
    if ms == [] then []
    else
      var all := [offset] + Shifted(ms);
      if all[|all| - 1] + 1 > size then all[..|all| - 1] else all
  }

  /** The entries before `i` have been moved behind their newline. */
  ghost predicate Moved(offset: nat, found: seq<nat>, indices: seq<nat>, i: nat) {
    && |indices| == |found| + 1 && indices[0] == offset
    && forall j | 1 <= j < |indices| :: indices[j] == found[j - 1] + if j < i then 1 else 0
  }

  lemma MovedOn(offset: nat, found: seq<nat>, indices: seq<nat>, i: nat)
    requires Moved(offset, found, indices, i) && 1 <= i < |indices|
    ensures Moved(offset, found, indices[i := indices[i] + 1], i + 1)
  {
  }

  lemma AllMoved(offset: nat, found: seq<nat>, indices: seq<nat>)
    requires Moved(offset, found, indices, |indices|)
    ensures indices == [offset] + Shifted(found)
  {
  }

  /** The vector operations that turn newline positions into line starts, in place. */
  method MakeIndex(size: nat, offset: nat, found: seq<nat>) returns (indices: seq<nat>)
    ensures indices == LineIndex(size, offset, found)
  {
    indices := found;
    if |indices| > 0 {
      indices := [offset] + indices;
      var i := 1;
      while i < |indices|
        invariant 1 <= i <= |indices| && Moved(offset, found, indices, i)
      {
        hide Moved;
        MovedOn(offset, found, indices, i);
        indices := indices[i := indices[i] + 1];
        i := i + 1;
      }
      AllMoved(offset, found, indices);
      if indices[|indices| - 1] + 1 > size {
        indices := indices[..|indices| - 1];
      }
    }
  }

  method GetLineNumbersInFile(disk: Disk, path: string, max: int, line: int) returns (rc: int, indices: seq<nat>)
    ensures path !in disk ==> rc == ERR_NOENT
    ensures path in disk ==>
      var file := disk[path];
      var n := if line < 0 then LineCount(file) + line else line;
      var offset := if n < 0 then 0 else OffsetOf(file, n);
      var ms := Matches(file, "\n", offset, |file|);
      indices == LineIndex(|file|, offset, ms[..Taken(ms, max)]) && rc == |indices|
  {
    hide Finding.Matches, OffsetOf, Newlines, Finding.Pick, LineIndex;
    var offset := GetOffsetFromLineNumber(disk, path, line);
    if offset < 0 {
      offset := 0;
    }
    rc, indices := FindInFile(disk, path, Some("\n"), true, max, 1, offset);
    if path in disk {
      ForwardAll(Matches(disk[path], "\n", offset, |disk[path]|), max, rc, indices);
      indices := MakeIndex(|disk[path]|, offset, indices);
      rc := |indices|;
    }
  }

  /** Without a newline from the line on, the index is empty, even if the line has text. */
  lemma IndexEmpty(file: string, line: nat)
    ensures var offset := OffsetOf(file, line);
      LineIndex(|file|, offset, Matches(file, "\n", offset, |file|)) == [] <==> line >= Newlines(file)
  {
    var offset := OffsetOf(file, line);
    OffsetAdd(file, line, 0);
    NewlineMatches(file, offset, 0);
    hide Finding.Matches;
  }

  /** A file of one unterminated line has a line, and no index. */
  lemma IndexMissesLine()
    ensures LineCount("a") == 1 && LineIndex(1, 0, Matches("a", "\n", 0, 1)) == []
  {
    assert "a"[1..] == "";
    assert Newlines("a") == 0 && OffsetOf("a", 0) == 0;
    hide Finding.Matches, LineIndex, Newlines, OffsetOf;
    IndexEmpty("a", 0);
  }

  lemma IndexEntry(file: string, line: nat, k: nat)
    requires line <= Newlines(file)
    ensures var offset := OffsetOf(file, line);
      var ms := Matches(file, "\n", offset, |file|);
      |ms| == Newlines(file) - line && (k <= |ms| ==> ([offset] + Shifted(ms))[k] == OffsetOf(file, line + k))
  {
    hide Finding.Matches, Newlines;
    var offset := OffsetOf(file, line);
    OffsetAdd(file, line, k);
    NewlineMatches(file, offset, if k > 0 then k - 1 else 0);
  }

  lemma IndexLength(file: string, line: nat)
    requires line < Newlines(file)
    ensures var offset := OffsetOf(file, line);
      var ms := Matches(file, "\n", offset, |file|);
      var index := LineIndex(|file|, offset, ms);
      && line + |index| == LineCount(file) && |index| <= |ms| + 1
      && forall k | 0 <= k < |index| :: index[k] == ([offset] + Shifted(ms))[k]
  {
    hide Finding.Matches, Newlines, OffsetOf;
    var offset := OffsetOf(file, line);
    var ms := Matches(file, "\n", offset, |file|);
    IndexEntry(file, line, |ms|);
    LastLine(file);
  }

  /**
    The index from line L on: entry k is the offset of line L + k; and it lists all the lines that
    start before the end of the file, which are those up to the last newline, and one more if the
    file goes on behind it.
   */
  lemma IndexIsOffsets(file: string, line: nat)
    requires line < Newlines(file)
    ensures var offset := OffsetOf(file, line);
      var index := LineIndex(|file|, offset, Matches(file, "\n", offset, |file|));
      && line + |index| == LineCount(file)
      && forall k | 0 <= k < |index| :: index[k] == OffsetOf(file, line + k) < |file|
  {
    hide Finding.Matches, Newlines, OffsetOf, LineIndex, LineCount;
    IndexLength(file, line);
    var offset := OffsetOf(file, line);
    var ms := Matches(file, "\n", offset, |file|);
    var index := LineIndex(|file|, offset, ms);
    forall k | 0 <= k < |index| ensures index[k] == OffsetOf(file, line + k) < |file| {
      IndexEntry(file, line, k);
      LineStarts(file, line + k);
    }
  }

  /** A line starts before the end exactly if it is one of the lines. */
  lemma StartsInside(file: string, n: nat)
    requires n <= Newlines(file)
    ensures OffsetOf(file, n) < |file| <==> n < LineCount(file)
  {
    hide OffsetOf, Newlines;
    LastLine(file);
    if n < LineCount(file) {
      LineStarts(file, n);
    }
  }

  lemma IndexSize(size: nat, offset: nat, ms: seq<nat>)
    ensures |LineIndex(size, offset, ms)| ==
      if ms == [] then 0 else if ms[|ms| - 1] + 1 < size then |ms| + 1 else |ms|
  {
  }

  lemma LastEntry(file: string, line: nat, t: nat)
    requires line <= Newlines(file) && 0 < t <= Newlines(file) - line
    ensures var ms := Matches(file, "\n", OffsetOf(file, line), |file|);
      t <= |ms| && ms[t - 1] + 1 == OffsetOf(file, line + t)
  {
    hide Finding.Matches, Newlines, OffsetOf;
    IndexEntry(file, line, t);
  }

  /**
    The maximum is a bound on the newlines looked at, not on the lines listed: the index is one longer
    than it exactly if there are more lines than that from the line on.
   */
  lemma IndexMaximum(file: string, line: nat, max: int)
    requires max >= 1 && line <= Newlines(file)
    ensures var offset := OffsetOf(file, line);
      var ms := Matches(file, "\n", offset, |file|);
      var index := LineIndex(|file|, offset, ms[..Taken(ms, max)]);
      && (|index| > max <==> line + max < LineCount(file)) && |index| <= max + 1
  {
    hide Finding.Matches, Newlines, OffsetOf, LineIndex;
    var offset := OffsetOf(file, line);
    var ms := Matches(file, "\n", offset, |file|);
    var t := Taken(ms, max);
    IndexEntry(file, line, 0);
    IndexSize(|file|, offset, ms[..t]);
    if ms != [] {
      LastEntry(file, line, t);
      StartsInside(file, line + t);
    }
  }

  /** Two lines and a maximum of one: both are listed. */
  lemma IndexOneMore()
    ensures var file := "a\nb\n";
      var ms := Matches(file, "\n", 0, |file|);
      |LineIndex(|file|, 0, ms[..Taken(ms, 1)])| == 2
  {
    var file := "a\nb\n";
    assert file[1..] == "\nb\n" && file[2..] == "b\n" && file[3..] == "\n";
    assert file[1..][1..] == file[2..] && file[2..][1..] == file[3..] && file[3..][1..] == "";
    assert Newlines(file[3..]) == 1;
    assert Newlines(file[2..]) == 1;
    assert Newlines(file[1..]) == 2;
    assert Newlines(file) == 2 && OffsetOf(file, 0) == 0;
    hide Finding.Matches, LineIndex, Newlines, OffsetOf;
    IndexMaximum(file, 0, 1);
  }

  lemma {:induction false} OffsetBeforeEnd(s: string, n: nat)
    requires n < Newlines(s)
    ensures OffsetOf(s, n) < |s|
  {
    if n > 0 {
      OffsetBeforeEnd(s[1..], if s[0] == '\n' then n - 1 else n);
    }
  }

  /** Behind the last newline there is nothing, or the unterminated last line. */
  lemma {:induction false} LastLine(s: string)
    ensures OffsetOf(s, Newlines(s)) == |s| <==> LineCount(s) == Newlines(s)
  {
    if s != [] {
      LastLine(s[1..]);
      assert |s| > 1 ==> s[|s| - 1] == s[1..][|s| - 2];
    }
  }

  // ----- reading a line -----

  /** The text from an offset up to the next newline or the end. */
  function LineAt(file: string, offset: nat): (text: string)
    requires offset < |file|
    ensures var end := offset + |text|;
      end <= |file| && text == file[offset..end] && '\n' !in text && (end < |file| ==> file[end] == '\n')
  {
    FirstNewline(file[offset..]);
    file[offset..offset + Distance(file, "\n", offset)]
  }

  /** Without one trailing carriage return. */
  function Chomp(s: string): string {
    if s != [] && s[|s| - 1] == '\r' then s[..|s| - 1] else s
  }

  lemma LineAtFrom(file: string, offset: nat, n: nat)
    requires offset < |file| && n == Distance(file, "\n", offset)
    ensures n <= |From(file, offset)| && From(file, offset)[..n] == LineAt(file, offset) && |LineAt(file, offset)| == n
  {
    hide FileSearch.FirstEnd;
  }

  method ReadToNewline(disk: Disk, path: string, offset: nat) returns (n: nat, text: string)
    requires path in disk && offset < |disk[path]|
    ensures text == LineAt(disk[path], offset) && n == |text|
  {
    hide FileSearch.FirstEnd, LineAt;
    var cb := (t: string, d: string) => (t + d, true);
    assert Unstopping(cb);
    var rc, s, found := ReadFile(disk, path, 250, cb, [], offset, Some("\n"), true);
    LineAtFrom(disk[path], offset, rc);
    TextFed([], From(disk[path], offset)[..rc], 250);
    n, text := rc, s;
  }

  method ReadLineInFile(disk: Disk, path: string, line: int) returns (rc: int, text: string)
    ensures path !in disk ==> rc == ERR_NOENT && text == []
    ensures path in disk ==>
      var file := disk[path];
      var n := if line < 0 then LineCount(file) + line else line;
      if n < 0 then rc == ERR_RANGE && text == []
      else if OffsetOf(file, n) >= |file| then rc == ERR_NOT_FOUND && text == []
      else
        var raw := LineAt(file, OffsetOf(file, n));
        rc == |text| && if raw != [] && raw[|raw| - 1] == '\r' then text + "\r" == raw else text == raw
  {
    hide OffsetOf, Newlines, LineAt;
    rc, text := ERR_NOENT, [];
    if path in disk {
      var offset := GetOffsetFromLineNumber(disk, path, line);
      if offset < 0 {
        rc := offset;
      } else if offset >= |disk[path]| {
        rc := ERR_NOT_FOUND;
      } else {
        rc, text := ReadToNewline(disk, path, offset);
        if text != [] && text[|text| - 1] == '\r' {
          text := text[..|text| - 1];
          rc := rc - 1;
        }
      }
    }
  }

  /** The lines from `i` on as they are read, with the newlines between and after them put back. */
  function Joined(file: string, i: nat): string
    decreases LineCount(file) - i
  {
    if i >= LineCount(file) || OffsetOf(file, i) >= |file| then []
    else Chomp(LineAt(file, OffsetOf(file, i))) + (if i < Newlines(file) then "\n" else "") + Joined(file, i + 1)
  }

  lemma NewlineOrNot(data: string)
    ensures FirstEnd(data, "\n", 0) == |data| <==> Newlines(data) == 0
  {
    FirstNewline(data);
    var k := FirstEnd(data, "\n", 0);
    if k == |data| {
      NoLine(data);
    } else {
      SkipLine(data, k, 1);
    }
  }

  lemma FirstLine(data: string)
    ensures var k := FirstEnd(data, "\n", 0);
      if Newlines(data) > 0 then OffsetOf(data, 1) == k + 1 && k < |data| && data == data[..k] + "\n" + data[k + 1..]
      else k == |data|
  {
    hide FileSearch.FirstEnd, OffsetOf, Newlines;
    NewlineOrNot(data);
    FirstNewline(data);
    var k := FirstEnd(data, "\n", 0);
    if k < |data| {
      SkipLine(data, k, 1);
      SplitAt(data, k);
    }
  }

  lemma SplitAt(data: string, k: nat)
    requires k < |data| && data[k] == '\n'
    ensures data == data[..k] + "\n" + data[k + 1..]
  {
  }

  lemma LineStarts(file: string, i: nat)
    requires i < LineCount(file)
    ensures OffsetOf(file, i) < |file|
  {
    hide OffsetOf, Newlines;
    LastLine(file);
    if i < Newlines(file) {
      OffsetBeforeEnd(file, i);
    }
  }

  lemma LineIs(file: string, o: nat)
    requires o < |file|
    ensures LineAt(file, o) == file[o..][..FirstEnd(file[o..], "\n", 0)]
  {
    hide FileSearch.FirstEnd;
  }

  lemma Behind(file: string, o: nat, k: nat)
    requires o + k <= |file|
    ensures file[o..][k..] == file[o + k..]
  {
  }

  /** A line, the newline that ends it if there is one, and the next line's offset. */
  lemma LineStep(file: string, i: nat)
    requires i < LineCount(file) && OffsetOf(file, i) < |file|
    ensures var o := OffsetOf(file, i);
      var text := LineAt(file, o);
      file[o..] == text + (if i < Newlines(file) then "\n" else "") + file[OffsetOf(file, i + 1)..]
  {
    hide FileSearch.FirstEnd, OffsetOf, Newlines, LineAt;
    var o := OffsetOf(file, i);
    var data := file[o..];
    OffsetAdd(file, i, 1);
    FirstLine(data);
    var k := FirstEnd(data, "\n", 0);
    LineIs(file, o);
    if i < Newlines(file) {
      Behind(file, o, k + 1);
    } else {
      OffsetPastEnd(file, i + 1);
      assert data[..k] == data;
    }
  }

  lemma JoinedOn(file: string, i: nat)
    requires i < LineCount(file) && OffsetOf(file, i) < |file|
    ensures Joined(file, i)
         == Chomp(LineAt(file, OffsetOf(file, i))) + (if i < Newlines(file) then "\n" else "") + Joined(file, i + 1)
  {
    hide OffsetOf, Newlines, LineAt, Chomp;
  }

  lemma JoinedEnd(file: string)
    ensures Joined(file, LineCount(file)) == []
  {
  }

  /** The text without the carriage returns that stand directly before a newline or the end. */
  function Stripped(s: string): (t: string)
    ensures |t| <= |s|
  {
    if s == [] then []
    else (if s[0] == '\r' && (|s| == 1 || s[1] == '\n') then [] else [s[0]]) + Stripped(s[1..])
  }

  lemma {:induction false} StrippedLine(raw: string, rest: string)
    requires '\n' !in raw && (rest == [] || rest[0] == '\n')
    ensures Stripped(raw + rest) == Chomp(raw) + Stripped(rest)
  {
    if raw == [] {
      assert raw + rest == rest;
    } else {
      assert (raw + rest)[1..] == raw[1..] + rest;
      StrippedLine(raw[1..], rest);
      hide Stripped, Chomp;
      StrippedFirst(raw + rest);
      ChompFirst(raw);
      if |raw| > 1 {
        assert raw[1] in raw && (raw + rest)[1] == raw[1];
        assert [raw[0]] + (Chomp(raw[1..]) + Stripped(rest)) == [raw[0]] + Chomp(raw[1..]) + Stripped(rest);
      }
    }
  }

  lemma StrippedFirst(s: string)
    requires s != []
    ensures Stripped(s) == (if s[0] == '\r' && (|s| == 1 || s[1] == '\n') then [] else [s[0]]) + Stripped(s[1..])
  {
  }

  lemma ChompFirst(s: string)
    requires s != []
    ensures |s| > 1 ==> Chomp(s) == [s[0]] + Chomp(s[1..])
    ensures |s| == 1 ==> Chomp(s) == (if s[0] == '\r' then [] else [s[0]]) && Chomp(s[1..]) == []
  {
  }

  lemma StrippedNewline(rest: string)
    ensures Stripped("\n" + rest) == "\n" + Stripped(rest)
  {
    assert ("\n" + rest)[1..] == rest;
  }

  /** Nothing is lost if and only if no carriage return stands before a newline or the end. */
  lemma {:induction false} StrippedNothing(s: string)
    ensures Stripped(s) == s <==> forall k | 0 <= k < |s| && s[k] == '\r' :: k + 1 < |s| && s[k + 1] != '\n'
  {
    if s != [] {
      var t := s[1..];
      StrippedNothing(t);
      assert forall k | 0 <= k < |t| :: t[k] == s[k + 1];
      if Stripped(t) == t {
        assert s == [s[0]] + t;
      } else {
        var k :| 0 <= k < |t| && t[k] == '\r' && !(k + 1 < |t| && t[k + 1] != '\n');
        assert s[k + 1] == '\r';
        assert ([s[0]] + Stripped(t))[1..] == Stripped(t);
      }
    }
  }

  lemma EndOfLines(file: string)
    ensures OffsetOf(file, LineCount(file)) == |file|
  {
    LastLine(file);
    if LineCount(file) > Newlines(file) {
      OffsetPastEnd(file, LineCount(file));
    }
  }

  /** Reading all lines and joining them again gives the file back, but for the carriage returns that end lines. */
  lemma {:induction false} Rejoined(file: string, i: nat)
    requires i <= LineCount(file)
    ensures Joined(file, i) == Stripped(file[OffsetOf(file, i)..])
    decreases LineCount(file) - i
  {
    hide OffsetOf, Newlines, LineAt, Chomp, Joined, LineCount, Stripped;
    if i < LineCount(file) {
      LineStarts(file, i);
      LineStep(file, i);
      JoinedOn(file, i);
      Rejoined(file, i + 1);
      StrippedStep(file, i);
    } else {
      EndOfLines(file);
      JoinedEnd(file);
      assert Stripped([]) == [] by { StrippedNothing([]); }
    }
  }

  lemma StrippedStep(file: string, i: nat)
    requires i < LineCount(file) && OffsetOf(file, i) < |file|
    ensures Stripped(file[OffsetOf(file, i)..])
         == Chomp(LineAt(file, OffsetOf(file, i))) + (if i < Newlines(file) then "\n" else "") + Stripped(file[OffsetOf(file, i + 1)..])
  {
    hide OffsetOf, Newlines, LineAt, Chomp, LineCount, Stripped;
    LineStep(file, i);
    var raw, rest := LineAt(file, OffsetOf(file, i)), file[OffsetOf(file, i + 1)..];
    if i < Newlines(file) {
      assert raw + "\n" + rest == raw + ("\n" + rest);
      StrippedLine(raw, "\n" + rest);
      StrippedNewline(rest);
      assert Chomp(raw) + ("\n" + Stripped(rest)) == Chomp(raw) + "\n" + Stripped(rest);
    } else {
      OffsetPastEnd(file, i + 1);
      assert raw + "" + rest == raw + rest;
      StrippedLine(raw, rest);
      assert Chomp(raw) + "" + Stripped(rest) == Chomp(raw) + Stripped(rest);
    }
  }

  lemma WholeFile(file: string)
    ensures Joined(file, 0) == Stripped(file)
  {
    hide Joined, LineCount, Stripped;
    Rejoined(file, 0);
    assert file[0..] == file;
  }

  // ----- the operations together -----

  /** Entry `k` of the index from line L on is what the lookup of line L + k says, and there are no more lines. */
  method IndexAgrees(disk: Disk, path: string, line: nat, k: nat) returns (count: int, entry: int, offset: int)
    requires path in disk && line < Newlines(disk[path])
    ensures line + count == LineCount(disk[path]) && (k < count ==> entry == offset < |disk[path]|)
  {
    var file := disk[path];
    var indices;
    count, indices := GetLineNumbersInFile(disk, path, -1, line);
    offset := GetOffsetFromLineNumber(disk, path, line + k);
    IndexIsOffsets(file, line);
    hide Finding.Matches, Newlines, OffsetOf, LineIndex, LineCount;
    ghost var ms := Matches(file, "\n", OffsetOf(file, line), |file|);
    assert ms[..Taken(ms, -1)] == ms;
    entry := if k < count then indices[k] else 0;
  }

  /** The two lookups undo each other on every line that exists. */
  method LineThereAndBack(disk: Disk, path: string, n: nat) returns (line: int)
    requires path in disk && n <= Newlines(disk[path])
    ensures line == n
  {
    var offset := GetOffsetFromLineNumber(disk, path, n);
    LineOfOffset(disk[path], n);
    line := GetLineNumberFromOffset(disk, path, offset);
    assert Upto(disk[path], offset) == disk[path][..offset];
  }

  /** From an offset to its line and back: the greatest line start that is not behind it. */
  method OffsetThereAndBack(disk: Disk, path: string, o: nat) returns (start: int)
    requires path in disk && o <= |disk[path]|
    ensures 0 <= start <= o && IsLineStart(disk[path], start) && forall k | start < k <= o :: !IsLineStart(disk[path], k)
  {
    var line := GetLineNumberFromOffset(disk, path, o);
    assert Upto(disk[path], o) == disk[path][..o];
    OffsetOfLine(disk[path], o);
    start := GetOffsetFromLineNumber(disk, path, line);
  }

  lemma JoinedStep(file: string, i: nat)
    requires i < LineCount(file)
    ensures file != [] && OffsetOf(file, i) < |file|
    ensures Joined(file, i) == Chomp(LineAt(file, OffsetOf(file, i)))
      + (if i + 1 < LineCount(file) || file[|file| - 1] == '\n' then "\n" else "") + Joined(file, i + 1)
  {
    LineStarts(file, i);
    JoinedOn(file, i);
    hide OffsetOf, Newlines, LineAt, Chomp, Joined;
  }

  lemma ChompIs(raw: string, text: string)
    requires if raw != [] && raw[|raw| - 1] == '\r' then text + "\r" == raw else text == raw
    ensures text == Chomp(raw)
  {
  }

  /**
    Reading a file line by line and putting the newlines back gives the file, but for one carriage return
    at the end of each line that has one.
   */
  method Rebuild(disk: Disk, path: string) returns (text: string)
    requires path in disk
    ensures text == Stripped(disk[path])
  {
    hide OffsetOf, Newlines, LineAt, LineCount, Chomp, Joined, Stripped;
    var file := disk[path];
    var total := TotalLines(disk, path);
    text := [];
    var i := 0;
    WholeFile(file);
    while i < total
      invariant 0 <= i <= total == LineCount(file) && text + Joined(file, i) == Stripped(file)
    {
      JoinedStep(file, i);
      var rc, line := ReadLineInFile(disk, path, i);
      ChompIs(LineAt(file, OffsetOf(file, i)), line);
      var newline := if i + 1 < total || file[|file| - 1] == '\n' then "\n" else "";
      Regroup(text, line, newline, Joined(file, i + 1));
      text := text + line + newline;
      i := i + 1;
    }
    JoinedEnd(file);
    assert text + [] == text;
  }

  lemma Regroup(a: string, b: string, c: string, d: string)
    ensures a + (b + c + d) == (a + b + c) + d
  {
  }
}
