/**
  Reading up to a delimiter.  `ByteLoop` is the byte-at-a-time loop of the base class
  `iIOInterface::readStringUntil` on the bytes that are there to read; the block scan of the TCP
  clients takes whole buffers and must do the same.
 */
module Delimited {
  import opened Pbufs

  /** `max` 0 means no limit, `delim` 0 means no delimiter. */
  datatype Request = Request(delim: byte, keep: bool, max: nat)

  /** The text appended, how many bytes were used up, and whether the loop stopped before running dry. */
  datatype Scan = Scan(text: seq<byte>, used: nat, stopped: bool)

  predicate Hit(q: Request, b: byte) {
    q.delim != 0 && b == q.delim
  }

  function ByteLoop(q: Request, s: seq<byte>, len: nat): (r: Scan)
    ensures r.used <= |s| && (!r.stopped ==> r.used == |s|)
  {
    if s == [] then Scan([], 0, false)
    else if Hit(q, s[0]) then Scan(if q.keep then [s[0]] else [], 1, true)
    else if q.max > 0 && len + 1 >= q.max then Scan([s[0]], 1, true)
    else
      var r := ByteLoop(q, s[1..], len + 1);
      Scan([s[0]] + r.text, 1 + r.used, r.stopped)
  }

  /** The bytes up to the first delimiter or the limit, or all; the text is they, less a delimiter not kept. */
  ghost predicate UpToStop(q: Request, s: seq<byte>, len: nat, r: Scan) {
    && r.used <= |s| && (!r.stopped ==> r.used == |s|)
    && (forall j | 0 <= j < r.used - 1 :: !Hit(q, s[j])) && (q.max > 0 ==> len + r.used <= q.max)
    && (r.stopped <==> r.used > 0 && (Hit(q, s[r.used - 1]) || (q.max > 0 && len + r.used == q.max)))
    && r.text == if r.used > 0 && Hit(q, s[r.used - 1]) && !q.keep then s[..r.used - 1] else s[..r.used]
  }

  lemma OneMore(q: Request, b: byte, s: seq<byte>, len: nat, r: Scan)
    requires UpToStop(q, s, len + 1, r) && !Hit(q, b) && (q.max > 0 ==> len + 1 < q.max)
    ensures UpToStop(q, [b] + s, len, Scan([b] + r.text, 1 + r.used, r.stopped))
  {
    var t, n := [b] + s, r.used;
    assert t[..1 + n] == [b] + s[..n] && (n > 0 ==> t[..n] == [b] + s[..n - 1]);
    assert forall j | 0 < j < n :: t[j] == s[j - 1];
  }

  /** What the loop does, without its steps. */
  lemma {:induction false} ByteLoopMeaning(q: Request, s: seq<byte>, len: nat)
    requires q.max > 0 ==> len < q.max
    ensures UpToStop(q, s, len, ByteLoop(q, s, len))
  {
    if s != [] && !Hit(q, s[0]) && !(q.max > 0 && len + 1 >= q.max) {
      ByteLoopMeaning(q, s[1..], len + 1);
      OneMore(q, s[0], s[1..], len, ByteLoop(q, s[1..], len + 1));
      assert [s[0]] + s[1..] == s;
      hide UpToStop;
    }
  }

  /** `memchr`: the first position of the delimiter in the block, or its length. */
  function Find(q: Request, block: seq<byte>): (i: nat)
    ensures i <= |block|
    ensures forall j | 0 <= j < i :: !Hit(q, block[j])
    ensures i < |block| ==> Hit(q, block[i])
  {
    if block == [] || Hit(q, block[0]) then 0 else 1 + Find(q, block[1..])
  }

  lemma FindInWire(q: Request, wire: seq<byte>, from: nat, n: nat)
    requires from + n <= |wire|
    ensures var at := Find(q, wire[from..from + n]);
      && (forall j | from <= j < from + at :: !Hit(q, wire[j]))
      && (at < n ==> Hit(q, wire[from + at]))
      && wire[from..from + n][..at] == wire[from..from + at]
  {
    var at := Find(q, wire[from..from + n]);
    forall j | from <= j < from + at ensures !Hit(q, wire[j]) {
      assert wire[j] == wire[from..from + n][j - from];
    }
  }

  /** A stretch without delimiter that stays below the limit is copied through. */
  lemma {:induction false} CopyThrough(q: Request, block: seq<byte>, rest: seq<byte>, len: nat)
    requires forall j | 0 <= j < |block| :: !Hit(q, block[j])
    requires q.max > 0 ==> len + |block| < q.max || (len + |block| == q.max && rest == [] && block != [])
    ensures q.max == 0 || len + |block| < q.max ==>
      var r := ByteLoop(q, rest, len + |block|);
      ByteLoop(q, block + rest, len) == Scan(block + r.text, |block| + r.used, r.stopped)
    ensures q.max > 0 && len + |block| == q.max ==> ByteLoop(q, block, len) == Scan(block, |block|, true)
  {
    if block == [] {
      assert block + rest == rest;
    } else {
      assert (block + rest)[1..] == block[1..] + rest;
      if q.max == 0 || len + 1 < q.max {
        CopyThrough(q, block[1..], rest, len + 1);
      }
      assert block == [block[0]] + block[1..];
    }
  }

  /** Once stopped, the bytes behind do not matter. */
  lemma {:induction false} StopsAlike(q: Request, s: seq<byte>, more: seq<byte>, len: nat)
    requires ByteLoop(q, s, len).stopped
    ensures ByteLoop(q, s + more, len) == ByteLoop(q, s, len)
  {
    assert (s + more)[1..] == s[1..] + more;
    if !Hit(q, s[0]) && !(q.max > 0 && len + 1 >= q.max) {
      StopsAlike(q, s[1..], more, len + 1);
    }
  }

  /** How much of a block the limit still admits after `done` bytes. */
  function Cut(q: Request, done: nat, block: nat): nat
    requires q.max > 0 ==> done < q.max
  {
    if q.max > 0 && block > q.max - done then q.max - done else block
  }

  lemma HitStep(q: Request, plain: seq<byte>, b: byte)
    requires (forall j | 0 <= j < |plain| :: !Hit(q, plain[j])) && Hit(q, b)
    requires q.max > 0 ==> |plain| < q.max
    ensures ByteLoop(q, plain + [b], 0) == Scan(plain + (if q.keep then [b] else []), |plain| + 1, true)
  {
    CopyThrough(q, plain, [b], 0);
  }

  lemma PlainStep(q: Request, plain: seq<byte>)
    requires forall j | 0 <= j < |plain| :: !Hit(q, plain[j])
    requires q.max > 0 ==> |plain| <= q.max
    ensures plain != [] ==> ByteLoop(q, plain, 0) == Scan(plain, |plain|, q.max > 0 && |plain| == q.max)
  {
    if plain != [] {
      CopyThrough(q, plain, [], 0);
      assert plain + [] == plain;
    }
  }

  /** One more block of a stream: text free of delimiters up to the limit, then perhaps the delimiter. */
  lemma BlockStep(q: Request, wire: seq<byte>, start: nat, used: nat, k: nat, hit: bool)
    requires start + used + k + (if hit then 1 else 0) <= |wire| && (hit || k > 0)
    requires !ByteLoop(q, wire[start..start + used], 0).stopped
    requires forall j | start + used <= j < start + used + k :: !Hit(q, wire[j])
    requires hit ==> Hit(q, wire[start + used + k])
    requires q.max > 0 ==> used + k + (if hit then 1 else 0) <= q.max
    ensures var n := used + k + (if hit then 1 else 0);
      var text := wire[start..start + used] + wire[start + used..start + used + k];
      ByteLoop(q, wire[start..start + n], 0)
        == if hit then Scan(text + (if q.keep then [q.delim] else []), n, true) else Scan(text, n, q.max > 0 && n == q.max)
  {
    hide ByteLoop;
    var done, plain := wire[start..start + used], wire[start..start + used + k];
    NoHits(q, done, 0);
    assert forall j | 0 <= j < used :: plain[j] == done[j];
    assert plain == done + wire[start + used..start + used + k];
    if hit {
      HitStep(q, plain, wire[start + used + k]);
      assert wire[start..start + used + k + 1] == plain + [q.delim];
    } else {
      PlainStep(q, plain);
    }
  }

  /** A loop that stopped on a part, or ran dry on all, is the loop on the whole. */
  lemma Whole(q: Request, wire: seq<byte>, start: nat, used: nat, end: nat)
    requires start + used <= end <= |wire|
    requires ByteLoop(q, wire[start..start + used], 0).stopped || start + used == end
    ensures ByteLoop(q, wire[start..end], 0) == ByteLoop(q, wire[start..start + used], 0)
  {
    if start + used < end {
      StopsAlike(q, wire[start..start + used], wire[start + used..end], 0);
      assert wire[start..end] == wire[start..start + used] + wire[start + used..end];
    }
  }

  /** A loop that ran dry has appended everything. */
  lemma {:induction false} Unstopped(q: Request, s: seq<byte>, len: nat)
    requires !ByteLoop(q, s, len).stopped
    ensures ByteLoop(q, s, len).text == s
  {
    if s != [] {
      Unstopped(q, s[1..], len + 1);
    }
  }

  lemma {:induction false} NoHits(q: Request, s: seq<byte>, len: nat)
    requires !ByteLoop(q, s, len).stopped
    ensures forall j | 0 <= j < |s| :: !Hit(q, s[j])
  {
    if s != [] {
      NoHits(q, s[1..], len + 1);
    }
  }

  // ----- the scan as a whole -----

  function Used(text: seq<byte>, hit: bool): nat {
    |text| + if hit then 1 else 0
  }

  /** `text` is the next stretch of the stream, free of delimiters, and one follows it if `hit`. */
  ghost predicate Stretch(q: Request, wire: seq<byte>, from: nat, text: seq<byte>, hit: bool) {
    && from + Used(text, hit) <= |wire|
    && text == wire[from..from + |text|]
    && (forall j | from <= j < from + |text| :: !Hit(q, wire[j]))
    && (hit ==> Hit(q, wire[from + |text|]))
  }

  lemma NoStretch(q: Request, wire: seq<byte>, at: nat)
    requires at <= |wire|
    ensures Stretch(q, wire, at, [], false)
  {
  }

  lemma OneByte(q: Request, wire: seq<byte>, at: nat)
    requires at < |wire|
    ensures var hit := Hit(q, wire[at]); Stretch(q, wire, at, if hit then [] else [wire[at]], hit)
  {
    assert wire[at..at + 1] == [wire[at]];
  }

  /** What is appended of the head block: cut to the limit, then up to the delimiter. */
  lemma HeadStretch(q: Request, wire: seq<byte>, from: nat, head: seq<byte>, len: nat)
    requires from + |head| <= |wire| && head == wire[from..from + |head|] && head != [] && (q.max > 0 ==> len < q.max)
    ensures var block := head[..Cut(q, len, |head|)];
      var at := Find(q, block);
      && Stretch(q, wire, from, block[..at], at < |block|)
      && 0 < Used(block[..at], at < |block|) <= |head|
      && (q.max > 0 ==> len + Used(block[..at], at < |block|) <= q.max)
  {
    var block := head[..Cut(q, len, |head|)];
    assert block == wire[from..from + |block|];
    FindInWire(q, wire, from, |block|);
    hide Find;
  }

  /**
    The scan has used up `used` bytes from `start` on and appended what the byte loop appends for
    them, and it has been stopped if the byte loop has.
   */
  ghost predicate Progress(q: Request, wire: seq<byte>, start: nat, used: nat, outstr: seq<byte>, out: seq<byte>, stopped: bool) {
    && start + used <= |wire|
    && var r := ByteLoop(q, wire[start..start + used], 0);
    out == outstr + r.text && r.used == used && r.stopped == stopped
  }

  lemma ProgressStart(q: Request, wire: seq<byte>, start: nat, outstr: seq<byte>)
    requires start <= |wire|
    ensures Progress(q, wire, start, 0, outstr, outstr, false)
  {
    assert wire[start..start + 0] == [];
  }

  lemma ProgressStep(q: Request, wire: seq<byte>, start: nat, used: nat, outstr: seq<byte>, out: seq<byte>, text: seq<byte>, hit: bool)
    requires Progress(q, wire, start, used, outstr, out, false)
    requires Stretch(q, wire, start + used, text, hit) && Used(text, hit) > 0
    requires q.max > 0 ==> used + Used(text, hit) <= q.max
    ensures var n := used + Used(text, hit);
      Progress(q, wire, start, n, outstr, if hit && q.keep then out + text + [q.delim] else out + text, hit || (q.max > 0 && n == q.max))
  {
    hide ByteLoop;
    var done := wire[start..start + used];
    Unstopped(q, done, 0);
    BlockStep(q, wire, start, used, |text|, hit);
    assert outstr + done + text == outstr + (done + text);
    if hit && q.keep {
      assert outstr + done + text + [q.delim] == outstr + (done + text + [q.delim]);
    } else if hit {
      assert done + text + [] == done + text;
    }
  }

  /** At the end: the byte loop on the bytes used, and on all of `wire[start..end]` if no more were seen. */
  lemma ProgressEnd(q: Request, wire: seq<byte>, start: nat, used: nat, outstr: seq<byte>, out: seq<byte>, stopped: bool, end: nat)
    requires Progress(q, wire, start, used, outstr, out, stopped) && start <= end <= |wire|
    ensures var r := ByteLoop(q, wire[start..start + used], 0);
      out == outstr + r.text && r.used == used && r.stopped == stopped
    ensures start + used <= end && (stopped || start + used == end) ==>
      var r := ByteLoop(q, wire[start..end], 0); out == outstr + r.text && used == r.used
  {
    if start + used <= end && (stopped || start + used == end) {
      Whole(q, wire, start, used, end);
    }
  }
}
