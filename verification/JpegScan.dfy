/** Splitting a boundary-less byte stream into JPEG frames, chunk by chunk. */
module JpegScan {
  import opened Basics
  import Stream

  const MAX_FRAME: nat := 0x80_0000
  const CHUNK: nat := 0x8000
  const SOI: byte := 0xD8
  const EOI: byte := 0xD9

  // ----- markers -----

  predicate Marker(b: Bytes, m: byte, i: int) {
    0 <= i && i + 1 < |b| && b[i] == 0xFF && b[i + 1] == m
  }

  /** Position of the first marker `m` at or after `from`, or |b| when there is none. */
  function Find(b: Bytes, m: byte, from: nat): (i: nat)
    requires from <= |b|
    ensures from <= i <= |b|
    ensures i < |b| ==> Marker(b, m, i)
    ensures forall k :: from <= k < i ==> !Marker(b, m, k)
    decreases |b| - from
  {
    if from == |b| || Marker(b, m, from) then from else Find(b, m, from + 1)
  }

  /** The span of the first frame: first SOI, first EOI at least two bytes later. */
  function First(b: Bytes): (r: Option<(nat, nat)>)
    ensures r.Some? ==> r.value.0 + 4 <= r.value.1 <= |b|
  {
    var i := Find(b, SOI, 0);
    if i == |b| then None
    else
      var j := Find(b, EOI, i + 2);
      if j == |b| then None else Some((i, j + 2))
  }

  // ----- the simple left-to-right split -----

  /** Cut out the first frame, resume right after it. */
  function Split(s: Bytes): seq<Bytes>
    decreases |s|
  {
    match First(s)
    case None => []
    case Some(p) => [s[p.0..p.1]] + Split(s[p.1..])
  }

  /** Every gap in front of a frame is shorter than MAX_FRAME, every frame at most one byte over it. */
  predicate Fits(s: Bytes)
    decreases |s|
  {
    match First(s)
    case None => true
    case Some(p) => p.0 < MAX_FRAME && p.1 - p.0 <= MAX_FRAME + 1 && Fits(s[p.1..])
  }

  /** A gap of g bytes and the byte behind it can be read as k stretches, each of which is dropped
      because it is over MAX_FRAME, when a read brings at most `most` bytes. */
  predicate Stretches(k: nat, g: int, most: nat) { k * (MAX_FRAME + 1) <= g + 1 <= k * (MAX_FRAME + most) }

  /** Some reads drop the first byte of a frame together with the gap of g bytes in front of it. */
  ghost predicate Deadly(g: int, most: nat) { exists k: nat :: k >= 1 && Stretches(k, g, most) }

  /** No gap in front of a frame is deadly, and every frame is at most one byte over MAX_FRAME. */
  ghost predicate FitsReads(s: Bytes, most: nat)
    decreases |s|
  {
    match First(s)
    case None => true
    case Some(p) => !Deadly(p.0, most) && p.1 - p.0 <= MAX_FRAME + 1 && FitsReads(s[p.1..], most)
  }

  // ----- what the scanner does, as a function of its buffer -----

  datatype Scan = Scan(frames: seq<Bytes>, buf: Bytes)

  /** What stays buffered when no complete frame is in b: from the first SOI on, or everything. */
  function Kept(b: Bytes): (o: nat)
    ensures o <= |b|
  {
    var i := Find(b, SOI, 0);
    if i == |b| then 0 else i
  }

  function Capped(b: Bytes): Bytes { if |b| > MAX_FRAME then [] else b }

  /** The inner loop: publish every complete frame, keep what may still grow into one. */
  function Drain(b: Bytes): Scan
    decreases |b|
  {
    match First(b)
    case None => Scan([], Capped(b[Kept(b)..]))
    case Some(p) =>
      var d := Drain(b[p.1..]);
      Scan([b[p.0..p.1]] + d.frames, d.buf)
  }

  function Feed(st: Scan, chunk: Bytes): Scan {
    if chunk == [] then st
    else
      var d := Drain(st.buf + chunk);
      Scan(st.frames + d.frames, d.buf)
  }

  function FeedAll(st: Scan, chunks: seq<Bytes>): Scan
    decreases |chunks|
  {
    if chunks == [] then st else FeedAll(Feed(st, chunks[0]), chunks[1..])
  }

  function Concat(chunks: seq<Bytes>): Bytes {
    if chunks == [] then [] else chunks[0] + Concat(chunks[1..])
  }

  const START := Scan([], [])

  // ----- the first frame of a prefix and of a suffix -----

  lemma FirstIs(b: Bytes, i: nat, e: nat)
    requires Marker(b, SOI, i) && forall k :: 0 <= k < i ==> !Marker(b, SOI, k)
    requires i + 4 <= e && Marker(b, EOI, e - 2)
    requires forall k :: i + 2 <= k < e - 2 ==> !Marker(b, EOI, k)
    ensures First(b) == Some((i, e))
  {}

  lemma NoFrame(b: Bytes)
    ensures First(b) == None <==>
      forall i, j :: Marker(b, SOI, i) && Marker(b, EOI, j) ==> j < i + 2
  {
    if First(b).Some? {
      assert Marker(b, SOI, First(b).value.0) && Marker(b, EOI, First(b).value.1 - 2);
    }
  }

  /** Bytes that arrive later do not change the first complete frame. */
  lemma FirstInPrefix(s: Bytes, n: nat)
    requires n <= |s|
    ensures First(s[..n]).Some? ==> First(s) == First(s[..n])
  {
    var t := s[..n];
    assert forall m, k :: 0 <= k < n - 1 ==> (Marker(t, m, k) <==> Marker(s, m, k));
    if First(t).Some? {
      FirstIs(s, First(t).value.0, First(t).value.1);
    }
  }

  /** A frame that is complete in s but not in the prefix ends behind the prefix; what the
      scanner keeps of the prefix is where that frame starts, or too short to hold its SOI. */
  lemma FirstBehindPrefix(s: Bytes, n: nat)
    requires n <= |s| && First(s[..n]).None? && First(s).Some?
    ensures n < First(s).value.1
    ensures Kept(s[..n]) <= First(s).value.0
    ensures Kept(s[..n]) < First(s).value.0 ==> Kept(s[..n]) == 0 && n <= First(s).value.0 + 1
  {
    var t, i, e := s[..n], First(s).value.0, First(s).value.1;
    assert forall m, k :: 0 <= k < n - 1 ==> (Marker(t, m, k) <==> Marker(s, m, k));
    NoFrame(t);
    assert e <= n ==> Marker(t, EOI, e - 2);
    assert i < n - 1 ==> Marker(t, SOI, i);
  }

  /** Bytes in front of the first frame can be dropped; a stream without a frame has none later. */
  lemma FirstInSuffix(s: Bytes, o: nat)
    requires o <= |s| && (First(s).Some? ==> o <= First(s).value.0)
    ensures First(s[o..]) ==
      match First(s) case None => None case Some(p) => Some((p.0 - o, p.1 - o))
  {
    var t := s[o..];
    assert forall m, k :: 0 <= k ==> (Marker(t, m, k) <==> Marker(s, m, k + o));
    match First(s)
    case Some(p) =>
      FirstIs(t, p.0 - o, p.1 - o);
    case None =>
      NoFrame(s);
      NoFrame(t);
  }

  // ----- the scanner finds exactly the frames of the split -----

  lemma SplitStep(s: Bytes)
    ensures match First(s)
            case None => Split(s) == []
            case Some(p) => Split(s) == [s[p.0..p.1]] + Split(s[p.1..])
  {
    hide First;
  }

  lemma SkipGap(s: Bytes, o: nat)
    requires o <= |s| && (First(s).Some? ==> o <= First(s).value.0)
    ensures Split(s[o..]) == Split(s)
  {
    hide First, Split;
    FirstInSuffix(s, o);
    SplitStep(s);
    SplitStep(s[o..]);
    if First(s).Some? {
      var p := First(s).value;
      SameSlices(s, o, p.0, p.1);
    }
  }

  lemma SameSlices(s: Bytes, o: nat, lo: nat, hi: nat)
    requires o <= lo <= hi <= |s|
    ensures s[o..][hi - o..] == s[hi..] && s[o..][lo - o..hi - o] == s[lo..hi]
  {}

  /** Without the first o bytes of the gap, the stream still fits if the rest of the gap is harmless. */
  lemma SkipGapFits(s: Bytes, o: nat, most: nat)
    requires o <= |s| && (First(s).Some? ==> o <= First(s).value.0 && !Deadly(First(s).value.0 - o, most))
    requires FitsReads(s, most)
    ensures FitsReads(s[o..], most)
  {
    hide First, Deadly;
    FirstInSuffix(s, o);
    match First(s)
    case None =>
    case Some(p) =>
      assert s[o..][p.1 - o..] == s[p.1..];
  }

  /** Dropping one stretch of a gap that is not deadly leaves one that is not deadly either. */
  lemma DropStretch(g: nat, n: nat, most: nat)
    requires MAX_FRAME < n <= MAX_FRAME + most && !Deadly(g, most) && n <= g + 1
    ensures n <= g && !Deadly(g - n, most)
  {
    assert n == g + 1 ==> Stretches(1, g, most);
    var rest := g - n;
    forall k: nat | k >= 1 && Stretches(k, rest, most)
      ensures Stretches(k + 1, g, most)
    {
      assert (k + 1) * (MAX_FRAME + most) == k * (MAX_FRAME + most) + (MAX_FRAME + most);
    }
  }

  lemma NoGap(most: nat)
    ensures !Deadly(0, most)
  {
    forall k: nat | k >= 1
      ensures !Stretches(k, 0, most)
    {}
  }

  lemma PrefixSlices(s: Bytes, n: nat, lo: nat, hi: nat)
    requires lo <= hi <= n <= |s|
    ensures s[..n][hi..] == s[hi..][..n - hi] && s[..n][lo..hi] == s[lo..hi]
  {}

  lemma SuffixSlices(s: Bytes, n: nat, from: nat, q: nat)
    requires from <= n <= |s| && q <= n - from
    ensures s[from..][q..n - from] == s[q + from..n] && s[from..][q..] == s[q + from..]
  {}

  /** What the scanner drops or keeps of a prefix without a complete frame costs no frame. */
  lemma TrimPrefix(s: Bytes, n: nat, most: nat) returns (o: nat)
    requires n <= |s| && n <= MAX_FRAME + most && FitsReads(s, most) && First(s[..n]).None?
    ensures o <= n && Capped(s[..n][Kept(s[..n])..]) == s[o..n]
    ensures First(s).Some? ==> o <= First(s).value.0
    ensures FitsReads(s[o..], most)
  {
    var k := Kept(s[..n]);
    assert s[..n][k..] == s[k..n];
    o := if n - k > MAX_FRAME then n else k;
    hide First, Kept, Deadly;
    NoGap(most);
    if First(s).Some? {
      FirstBehindPrefix(s, n);
      var p := First(s).value;
      if n > MAX_FRAME && k < p.0 {
        DropStretch(p.0, n, most);
      }
      assert o <= p.0;
      assert o == 0 || o == p.0 || o == n;
    }
    hide FitsReads;
    SkipGapFits(s, o, most);
  }

  /** Draining any prefix of a stream s, one read longer than the buffer may be, splits off frames
      of s and keeps a suffix of the prefix that still holds everything the rest of s needs.
      Returns where that suffix starts. */
  lemma {:induction false} DrainPrefix(s: Bytes, n: nat, most: nat) returns (o: nat)
    requires n <= |s| && n <= MAX_FRAME + most && FitsReads(s, most)
    ensures o <= n
    ensures Drain(s[..n]).buf == s[o..n]
    ensures Split(s) == Drain(s[..n]).frames + Split(s[o..])
    ensures FitsReads(s[o..], most)
    decreases n
  {
    hide First, Kept, Deadly;
    var t := s[..n];
    if First(t).None? {
      o := TrimPrefix(s, n, most);
      SkipGap(s, o);
    } else {
      FirstInPrefix(s, n);
      var p := First(s).value;
      var rest := s[p.1..];
      PrefixSlices(s, n, p.0, p.1);
      assert FitsReads(rest, most);
      DrainStep(t);
      SplitStep(s);
      hide Drain, Split, FitsReads;
      var q := DrainPrefix(rest, n - p.1, most);
      o := q + p.1;
      SuffixSlices(s, n, p.1, q);
    }
  }

  /** A buffer the scanner left behind holds no complete frame. */
  lemma {:induction false} LeftoverHasNoFrame(b: Bytes)
    ensures First(Drain(b).buf) == None
    decreases |b|
  {
    match First(b)
    case Some(p) => LeftoverHasNoFrame(b[p.1..]);
    case None => FirstInSuffix(b, Kept(b));
  }

  lemma FeedSplits(st: Scan, chunk: Bytes, s: Bytes, most: nat) returns (later: Bytes)
    requires st.buf + chunk <= s && FitsReads(s, most) && First(st.buf) == None
    requires |st.buf| <= MAX_FRAME && |chunk| <= most
    ensures var next := Feed(st, chunk);
      && First(next.buf) == None && |next.buf| <= MAX_FRAME
      && later == next.buf + s[|st.buf + chunk|..]
      && FitsReads(later, most)
      && st.frames + Split(s) == next.frames + Split(later)
  {
    hide First, Split, FitsReads, Drain;
    var t := st.buf + chunk;
    var rest := s[|t|..];
    if chunk == [] {
      later := s;
    } else {
      var o := DrainPrefix(s, |t|, most);
      assert s[..|t|] == t;
      LeftoverHasNoFrame(t);
      DrainBounds(t);
      later := s[o..];
    }
  }

  /** No read brings more than `most` bytes. */
  predicate ReadsUpTo(chunks: seq<Bytes>, most: nat) { forall c :: c in chunks ==> |c| <= most }

  lemma {:induction false} FeedAllSplits(st: Scan, chunks: seq<Bytes>, s: Bytes, most: nat)
    requires s == st.buf + Concat(chunks) && FitsReads(s, most) && First(st.buf) == None
    requires |st.buf| <= MAX_FRAME && ReadsUpTo(chunks, most)
    ensures FeedAll(st, chunks).frames == st.frames + Split(s)
    decreases |chunks|
  {
    hide First, FitsReads, Drain, Feed;
    if chunks == [] {
      NothingToSplit(s);
      assert s == st.buf;
    } else {
      assert s == st.buf + chunks[0] + Concat(chunks[1..]);
      var later := FeedSplits(st, chunks[0], s, most);
      FeedAllSplits(Feed(st, chunks[0]), chunks[1..], later, most);
    }
  }

  lemma NothingToSplit(s: Bytes)
    ensures First(s) == None ==> Split(s) == []
  {}

  /** With reads of bounded size, the frames do not depend on where the stream is cut. */
  lemma BoundedScanIsSplit(chunks: seq<Bytes>, most: nat)
    requires FitsReads(Concat(chunks), most) && ReadsUpTo(chunks, most)
    ensures FeedAll(START, chunks).frames == Split(Concat(chunks))
  {
    assert [] + Concat(chunks) == Concat(chunks);
    FeedAllSplits(START, chunks, Concat(chunks), most);
  }

  lemma {:induction false} ShortGapsFit(s: Bytes, most: nat)
    requires Fits(s)
    ensures FitsReads(s, most)
    decreases |s|
  {
    hide First;
    match First(s)
    case None =>
    case Some(p) =>
      ShortGapsFit(s[p.1..], most);
      forall k: nat | k >= 1
        ensures !Stretches(k, p.0, most)
      {}
  }

  lemma {:induction false} ReadInConcat(chunks: seq<Bytes>)
    ensures ReadsUpTo(chunks, |Concat(chunks)|)
    decreases |chunks|
  {
    if chunks != [] {
      ReadInConcat(chunks[1..]);
      assert forall c :: c in chunks ==> c == chunks[0] || c in chunks[1..];
    }
  }

  /** Reads of any size: the frames are those of the split, however the stream is cut. */
  lemma ScanIsSplit(chunks: seq<Bytes>)
    requires Fits(Concat(chunks))
    ensures FeedAll(START, chunks).frames == Split(Concat(chunks))
  {
    var most := |Concat(chunks)|;
    ShortGapsFit(Concat(chunks), most);
    ReadInConcat(chunks);
    BoundedScanIsSplit(chunks, most);
  }

  lemma SameFramesForEveryChunking(a: seq<Bytes>, b: seq<Bytes>)
    requires Concat(a) == Concat(b) && Fits(Concat(a))
    ensures FeedAll(START, a).frames == FeedAll(START, b).frames
  {
    ScanIsSplit(a);
    ScanIsSplit(b);
  }

  // ----- what holds even when oversized data is dropped -----

  lemma {:induction false} DrainBounds(b: Bytes)
    ensures |Drain(b).buf| <= MAX_FRAME && |Drain(b).buf| <= |b|
    ensures forall f :: f in Drain(b).frames ==> |f| <= |b|
    decreases |b|
  {
    if First(b).Some? {
      DrainBounds(b[First(b).value.1..]);
    }
  }

  /** The buffer holds at most MAX_FRAME bytes between reads, one read more inside a step. */
  lemma {:induction false} BufferBounded(st: Scan, chunks: seq<Bytes>)
    requires |st.buf| <= MAX_FRAME
    ensures |FeedAll(st, chunks).buf| <= MAX_FRAME
    decreases |chunks|
  {
    if chunks != [] {
      DrainBounds(st.buf + chunks[0]);
      BufferBounded(Feed(st, chunks[0]), chunks[1..]);
    }
  }

  /** A complete picture: starts with SOI, and its only EOI is its end. */
  ghost predicate IsPicture(f: Bytes) {
    && 4 <= |f| && Marker(f, SOI, 0) && f[..2] == [0xFF, 0xD8] && f[|f| - 2..] == [0xFF, 0xD9]
    && forall i :: Marker(f, EOI, i) <==> i == |f| - 2
  }

  datatype Span = Span(lo: nat, hi: nat)

  ghost predicate IsSlice(x: Bytes, f: Bytes, sp: Span, end: nat)
    requires end <= |x|
  {
    sp.lo <= sp.hi <= end && f == x[sp.lo..sp.hi] && IsPicture(f)
  }

  /** The frames are slices of x at the given spans, in order, disjoint, none past `end`. */
  ghost predicate Slices(x: Bytes, frames: seq<Bytes>, spans: seq<Span>, end: nat) {
    && |spans| == |frames| && end <= |x|
    && (forall k :: 0 <= k < |spans| ==> IsSlice(x, frames[k], spans[k], end))
    && (forall k, l :: 0 <= k < l < |spans| ==> spans[k].hi <= spans[l].lo)
  }

  lemma FirstIsPicture(b: Bytes)
    requires First(b).Some?
    ensures IsPicture(b[First(b).value.0..First(b).value.1])
  {
    var p := First(b).value;
    var f := b[p.0..p.1];
    forall k | 0 <= k < |f| - 1
      ensures Marker(f, EOI, k) <==> Marker(b, EOI, k + p.0)
    {}
    assert forall k :: p.0 + 2 <= k < p.1 - 2 ==> !Marker(b, EOI, k);
    assert f[0] == 0xFF && f[1] == 0xD8;
    assert Marker(f, EOI, |f| - 2);
  }

  lemma NoSlices(b: Bytes, end: nat)
    requires end <= |b|
    ensures Slices(b, [], [], end)
  {}

  lemma FirstSlice(b: Bytes)
    requires First(b).Some?
    ensures var p := First(b).value;
      Slices(b, [b[p.0..p.1]], [Span(p.0, p.1)], p.1)
  {
    FirstIsPicture(b);
  }

  function Shift(spans: seq<Span>, d: nat): (r: seq<Span>)
    ensures |r| == |spans|
    ensures forall k :: 0 <= k < |r| ==> r[k] == Span(spans[k].lo + d, spans[k].hi + d)
  {
    seq(|spans|, k requires 0 <= k < |spans| => Span(spans[k].lo + d, spans[k].hi + d))
  }

  lemma MoreBytes(x: Bytes, more: Bytes, frames: seq<Bytes>, spans: seq<Span>, end: nat)
    requires Slices(x, frames, spans, end)
    ensures Slices(x + more, frames, spans, end)
  {
    hide IsPicture;
    forall k | 0 <= k < |spans|
      ensures (x + more)[spans[k].lo..spans[k].hi] == x[spans[k].lo..spans[k].hi]
    {}
  }

  lemma ShiftSlices(x: Bytes, from: nat, g: seq<Bytes>, q: seq<Span>, end: nat)
    requires from <= |x| && Slices(x[from..], g, q, end)
    ensures Slices(x, g, Shift(q, from), from + end)
  {
    hide IsPicture;
    forall k | 0 <= k < |q|
      ensures IsSlice(x, g[k], Shift(q, from)[k], from + end)
    {
      assert IsSlice(x[from..], g[k], q[k], end);
      SliceOfTail(x, from, q[k].lo, q[k].hi);
    }
    hide IsSlice;
  }

  lemma LongerEnd(x: Bytes, f: Bytes, sp: Span, end: nat, end2: nat)
    requires end <= end2 <= |x| && IsSlice(x, f, sp, end)
    ensures IsSlice(x, f, sp, end2) && sp.hi <= end
  {}

  /** Slices of an earlier part, then slices of what follows it. */
  lemma JoinSlices(x: Bytes, f: seq<Bytes>, p: seq<Span>, end: nat, g: seq<Bytes>, q: seq<Span>, end2: nat)
    requires Slices(x, f, p, end) && Slices(x[end..], g, q, end2)
    ensures Slices(x, f + g, p + Shift(q, end), end + end2)
  {
    ShiftSlices(x, end, g, q, end2);
    hide IsSlice, Shift;
    forall k | 0 <= k < |p|
      ensures IsSlice(x, f[k], p[k], end + end2) && p[k].hi <= end
    {
      LongerEnd(x, f[k], p[k], end, end + end2);
    }
    var r := Shift(q, end);
    assert forall k :: 0 <= k < |r| ==> r[k].lo >= end;
    AppendSlices(x, f, p, end, g, r, end + end2);
  }

  lemma AppendSlices(x: Bytes, f: seq<Bytes>, p: seq<Span>, mid: nat, g: seq<Bytes>, r: seq<Span>, end: nat)
    requires Slices(x, g, r, end) && |f| == |p|
    requires forall k :: 0 <= k < |p| ==> IsSlice(x, f[k], p[k], end) && p[k].hi <= mid
    requires forall k, l :: 0 <= k < l < |p| ==> p[k].hi <= p[l].lo
    requires forall k :: 0 <= k < |r| ==> mid <= r[k].lo
    ensures Slices(x, f + g, p + r, end)
  {
    hide IsSlice;
    var fs, ps := f + g, p + r;
    assert forall k :: |p| <= k < |ps| ==> fs[k] == g[k - |p|] && ps[k] == r[k - |p|];
  }

  lemma SliceOfTail(x: Bytes, end: nat, lo: nat, hi: nat)
    requires end <= |x| && lo <= hi <= |x| - end
    ensures x[end..][lo..hi] == x[lo + end..hi + end]
  {}

  lemma SuffixOfTail(b: Bytes, from: nat, left: nat)
    requires from <= |b| && left <= |b| - from
    ensures b[from..][|b| - from - left..] == b[|b| - left..]
  {}

  /** Scanning b leaves a suffix of it, and what it found lies in order in front of that. */
  ghost predicate ScansTo(b: Bytes, d: Scan, spans: seq<Span>) {
    && |d.buf| <= |b| && d.buf == b[|b| - |d.buf|..]
    && Slices(b, d.frames, spans, |b| - |d.buf|)
  }

  lemma {:induction false} DrainSlices(b: Bytes) returns (spans: seq<Span>)
    ensures ScansTo(b, Drain(b), spans)
    decreases |b|
  {
    hide First, Drain, Shift, ScansTo;
    match First(b)
    case None =>
      spans := [];
      NothingScanned(b);
    case Some(p) =>
      var rest := DrainSlices(b[p.1..]);
      spans := [Span(p.0, p.1)] + Shift(rest, p.1);
      FrameScanned(b, rest);
  }

  lemma NothingScanned(b: Bytes)
    requires First(b) == None
    ensures ScansTo(b, Drain(b), [])
  {
    hide First, Drain, Slices, Kept, Capped;
    DrainStep(b);
    CappedIsSuffix(b, Kept(b));
    NoSlices(b, |b| - |Drain(b).buf|);
  }

  lemma FrameScanned(b: Bytes, rest: seq<Span>)
    requires First(b).Some? && ScansTo(b[First(b).value.1..], Drain(b[First(b).value.1..]), rest)
    ensures ScansTo(b, Drain(b), [Span(First(b).value.0, First(b).value.1)] + Shift(rest, First(b).value.1))
  {
    hide First, Drain, Slices, Shift;
    var p := First(b).value;
    DrainStep(b);
    FirstSlice(b);
    FrameThenSlices(b, p.0, p.1, Drain(b[p.1..]), rest);
  }

  lemma FrameThenSlices(b: Bytes, lo: nat, hi: nat, d: Scan, rest: seq<Span>)
    requires lo <= hi <= |b| && |d.buf| <= |b| - hi && d.buf == b[hi..][|b| - hi - |d.buf|..]
    requires Slices(b, [b[lo..hi]], [Span(lo, hi)], hi) && Slices(b[hi..], d.frames, rest, |b| - hi - |d.buf|)
    ensures d.buf == b[|b| - |d.buf|..]
    ensures Slices(b, [b[lo..hi]] + d.frames, [Span(lo, hi)] + Shift(rest, hi), |b| - |d.buf|)
  {
    hide Slices, Shift;
    SuffixOfTail(b, hi, |d.buf|);
    JoinSlices(b, [b[lo..hi]], [Span(lo, hi)], hi, d.frames, rest, |b| - hi - |d.buf|);
  }

  lemma CappedIsSuffix(b: Bytes, k: nat)
    requires k <= |b|
    ensures var kept := Capped(b[k..]); |kept| <= |b| && kept == b[|b| - |kept|..]
  {}

  /** After any reads x: the buffer is a suffix of x, and the frames published are complete
      pictures cut from x in order, disjoint from each other and from the buffer. */
  lemma {:induction false} FeedAllSlices(st: Scan, x: Bytes, before: seq<Span>, chunks: seq<Bytes>)
    returns (spans: seq<Span>)
    requires |st.buf| <= |x| && st.buf == x[|x| - |st.buf|..]
    requires Slices(x, st.frames, before, |x| - |st.buf|)
    ensures var all, end := x + Concat(chunks), FeedAll(st, chunks);
      && |end.buf| <= |all|
      && end.buf == all[|all| - |end.buf|..]
      && Slices(all, end.frames, spans, |all| - |end.buf|)
    decreases |chunks|
  {
    hide Slices, Feed;
    if chunks == [] {
      assert x + Concat(chunks) == x;
      spans := before;
    } else {
      var y, next := x + chunks[0], Feed(st, chunks[0]);
      var mid := FeedSlices(st, x, before, chunks[0]);
      assert y + Concat(chunks[1..]) == x + Concat(chunks);
      spans := FeedAllSlices(next, y, mid, chunks[1..]);
    }
  }

  lemma {:induction false} FeedSlices(st: Scan, x: Bytes, before: seq<Span>, chunk: Bytes)
    returns (spans: seq<Span>)
    requires |st.buf| <= |x| && st.buf == x[|x| - |st.buf|..]
    requires Slices(x, st.frames, before, |x| - |st.buf|)
    ensures var y, next := x + chunk, Feed(st, chunk);
      && |next.buf| <= |y|
      && next.buf == y[|y| - |next.buf|..]
      && Slices(y, next.frames, spans, |y| - |next.buf|)
  {
    hide IsPicture, Slices, Drain;
    var y, end := x + chunk, |x| - |st.buf|;
    MoreBytes(x, chunk, st.frames, before, end);
    if chunk == [] {
      assert y == x;
      return before;
    }
    var b := st.buf + chunk;
    assert y[end..] == b;
    var more := DrainSlices(b);
    assert b[|b| - |Drain(b).buf|..] == y[|y| - |Drain(b).buf|..];
    JoinSlices(y, st.frames, before, end, Drain(b).frames, more, |b| - |Drain(b).buf|);
    spans := before + Shift(more, end);
  }

  lemma PublishedFramesAreSlices(chunks: seq<Bytes>) returns (spans: seq<Span>)
    ensures var all, end := Concat(chunks), FeedAll(START, chunks);
      && |end.buf| <= |all|
      && end.buf == all[|all| - |end.buf|..]
      && Slices(all, end.frames, spans, |all| - |end.buf|)
  {
    spans := FeedAllSlices(START, [], [], chunks);
    assert [] + Concat(chunks) == Concat(chunks);
  }

  // ----- the scanner itself -----

  /** A growable byte buffer, shifted in place. */
  class ByteBuffer {
    var data: array<byte>
    var len: nat

    ghost predicate Valid()
      reads this
    {
      len <= data.Length
    }

    ghost function Contents(): Bytes
      reads this, data
      requires Valid()
    {
      data[..len]
    }

    constructor (capacity: nat)
      ensures Valid() && fresh(data) && Contents() == []
    {
      data, len := new byte[capacity], 0;
    }

    method Append(chunk: Bytes)
      requires Valid()
      modifies this, data
      ensures Valid() && (data == old(data) || fresh(data))
      ensures Contents() == old(Contents()) + chunk
    {
      var total := len + |chunk|;
      if total > data.Length {
        Grow(total);
      }
      for i := 0 to |chunk|
        invariant data.Length >= total && (data == old(data) || fresh(data))
        invariant len == old(len) && data[..len] == old(Contents())
        invariant forall k :: 0 <= k < i ==> data[len + k] == chunk[k]
      {
        data[len + i] := chunk[i];
      }
      assert data[..total] == data[..len] + chunk;
      len := total;
    }

    /** Moves the contents to a larger array. */
    method Grow(total: nat)
      requires Valid() && len <= total
      modifies `data
      ensures Valid() && fresh(data) && data.Length >= total && Contents() == old(Contents())
    {
      var bigger := new byte[2 * total];
      for i := 0 to len
        invariant data == old(data) && len == old(len) && data[..] == old(data[..])
        invariant bigger[..i] == data[..i]
      {
        bigger[i] := data[i];
      }
      data := bigger;
    }

    method DropFront(n: nat)
      requires Valid() && n <= len
      modifies this, data
      ensures Valid() && data == old(data)
      ensures Contents() == old(Contents())[n..]
    {
      for i := 0 to len - n
        invariant len == old(len) && data == old(data)
        invariant forall k :: 0 <= k < i ==> data[k] == old(data[k + n])
        invariant forall k :: i <= k < len ==> data[k] == old(data[k])
      {
        data[i] := data[i + n];
      }
      len := len - n;
      assert forall k :: 0 <= k < len ==> data[..len][k] == old(Contents())[n..][k];
    }

    method Clear()
      requires Valid()
      modifies `len
      ensures Valid() && Contents() == []
    {
      len := 0;
    }

    method Slice(lo: nat, hi: nat) returns (out: Bytes)
      requires Valid() && lo <= hi <= len
      ensures out == Contents()[lo..hi]
    {
      out := data[lo..hi];
    }

    method Index(m: byte, from: nat) returns (i: nat)
      requires Valid() && from <= len
      ensures i == Find(Contents(), m, from)
    {
      i := from;
      while i < len
        invariant from <= i <= len
        invariant Find(Contents(), m, from) == Find(Contents(), m, i)
      {
        if i + 1 < len && data[i] == 0xFF && data[i + 1] == m {
          return;
        }
        i := i + 1;
      }
    }
  }

  /** One call of the reader: the bytes it delivered, and whether it also ended the stream. */
  datatype Read = Read(data: Bytes, failed: bool)

  /** The bytes the scanner sees: everything up to and including the first failing read. */
  function Delivered(calls: seq<Read>): seq<Bytes>
    decreases |calls|
  {
    if calls == [] then []
    else if calls[0].failed then [calls[0].data]
    else [calls[0].data] + Delivered(calls[1..])
  }

  /** These are the data of the calls before the first failing one, and its own. */
  lemma {:induction false} DeliveredIs(calls: seq<Read>, k: nat)
    requires k <= |calls| && (forall i :: 0 <= i < k ==> !calls[i].failed) && (k < |calls| ==> calls[k].failed)
    ensures var n := if k < |calls| then k + 1 else k;
      |Delivered(calls)| == n && forall i :: 0 <= i < n ==> Delivered(calls)[i] == calls[i].data
    decreases |calls|
  {
    if k > 0 { DeliveredIs(calls[1..], k - 1); }
  }

  /** A stream after publishing the frames in order: only the newest frame and the error change. */
  function PublishAll(c: Stream.Core, frames: seq<Bytes>): Stream.Core {
    c.(published := c.published + frames, err := c.err && frames == [])
  }

  lemma NoStartMeans(b: Bytes)
    ensures var i := Find(b, SOI, 0);
      if i == |b| then First(b) == None && Kept(b) == 0 && b[0..] == b else i + 2 <= |b| && Kept(b) == i
  {
    hide Find;
  }

  lemma StartMeans(b: Bytes)
    requires Find(b, SOI, 0) + 2 <= |b|
    ensures var i := Find(b, SOI, 0); var j := Find(b, EOI, i + 2);
      First(b) == if j == |b| then None else Some((i, j + 2))
  {
    hide Find;
  }

  /** Takes the next complete frame out of the buffer, or trims what cannot be part of one. */
  method NextFrame(b: ByteBuffer) returns (out: Option<Bytes>)
    requires b.Valid()
    modifies b, b.data
    ensures b.Valid() && b.data == old(b.data)
    ensures var was := old(b.Contents());
      match First(was)
      case None => out == None && b.Contents() == Capped(was[Kept(was)..])
      case Some(p) => out == Some(was[p.0..p.1]) && b.Contents() == was[p.1..]
  {
    hide First, Kept, Find;
    ghost var was := b.Contents();
    var i := b.Index(SOI, 0);
    NoStartMeans(was);
    if i == b.len {
      if b.len > MAX_FRAME {
        b.Clear();
      }
      return None;
    }
    var j := b.Index(EOI, i + 2);
    StartMeans(was);
    if j == b.len {
      if i > 0 {
        b.DropFront(i);
      }
      if b.len > MAX_FRAME {
        b.Clear();
      }
      return None;
    }
    var frame := b.Slice(i, j + 2);
    b.DropFront(j + 2);
    return Some(frame);
  }

  method DrainBuffer(b: ByteBuffer, s: Stream.Stream)
    requires b.Valid() && s.Valid()
    modifies b, b.data, s
    ensures b.Valid() && b.data == old(b.data) && s.Valid()
    ensures var d := Drain(old(b.Contents()));
      && s.State() == PublishAll(old(s.State()), d.frames)
      && b.Contents() == d.buf
  {
    hide First, Kept, Capped, Drain, PublishAll;
    ghost var goal := Drain(b.Contents());
    ghost var done: seq<Bytes> := [];
    PublishNothing(s.State());
    while true
      invariant b.Valid() && b.data == old(b.data) && s.Valid()
      invariant s.State() == PublishAll(old(s.State()), done)
      invariant goal.frames == done + Drain(b.Contents()).frames
      invariant goal.buf == Drain(b.Contents()).buf
      decreases b.len
    {
      DrainStep(b.Contents());
      var next := NextFrame(b);
      if next == None {
        assert done + [] == done;
        return;
      }
      s.PublishFrame(next.value);
      PublishOneMore(old(s.State()), done, next.value);
      assert done + ([next.value] + Drain(b.Contents()).frames) == done + [next.value] + Drain(b.Contents()).frames;
      done := done + [next.value];
    }
  }

  lemma DrainStep(b: Bytes)
    ensures match First(b)
            case None => Drain(b) == Scan([], Capped(b[Kept(b)..]))
            case Some(p) => Drain(b) == Scan([b[p.0..p.1]] + Drain(b[p.1..]).frames, Drain(b[p.1..]).buf)
  {}

  lemma PublishNothing(c: Stream.Core)
    ensures PublishAll(c, []) == c
  {
    assert c.published + [] == c.published;
  }

  lemma PublishOneMore(c: Stream.Core, done: seq<Bytes>, f: Bytes)
    ensures var d := PublishAll(c, done);
      d.(published := d.published + [f], err := false) == PublishAll(c, done + [f])
  {
    assert c.published + (done + [f]) == c.published + done + [f];
  }

  /** One non-failing part of a read: buffer the bytes and publish what they complete. */
  method Consume(b: ByteBuffer, s: Stream.Stream, chunk: Bytes)
    requires b.Valid() && s.Valid() && b.len <= MAX_FRAME && |chunk| <= CHUNK
    modifies b, b.data, s
    ensures b.Valid() && (b.data == old(b.data) || fresh(b.data)) && s.Valid()
    ensures b.len <= MAX_FRAME
    ensures var next := Feed(Scan([], old(b.Contents())), chunk);
      && b.Contents() == next.buf
      && s.State() == PublishAll(old(s.State()), next.frames)
  {
    hide Drain;
    if |chunk| > 0 {
      b.Append(chunk);
      assert b.len <= MAX_FRAME + CHUNK;
      DrainBounds(b.Contents());
      DrainBuffer(b, s);
    }
  }

  /** Reads until the stream fails and publishes the frames found. False: the reader is still open. */
  method ScanJPEGs(calls: seq<Read>, s: Stream.Stream) returns (failed: bool)
    requires s.Valid() && forall r :: r in calls ==> |r.data| <= CHUNK
    modifies s
    ensures s.Valid()
    ensures var frames := FeedAll(START, Delivered(calls)).frames;
      s.State() == old(s.State()).(published := old(s.published) + frames, err := old(s.err) && frames == [])
    ensures failed <==> exists r :: r in calls && r.failed
  {
    hide Drain, Feed, FeedAll, Delivered;
    var b := new ByteBuffer(512 * 1024);
    ghost var st := START;
    PublishNothing(s.State());
    DeliveredStart(calls);
    for k := 0 to |calls|
      invariant b.Valid() && s.Valid() && fresh(b) && fresh(b.data)
      invariant b.len <= MAX_FRAME && b.Contents() == st.buf
      invariant s.State() == PublishAll(old(s.State()), st.frames)
      invariant FeedAll(START, Delivered(calls)) == FeedAll(st, Delivered(calls[k..]))
      invariant forall r :: r in calls[..k] ==> !r.failed
    {
      var r := calls[k];
      assert r in calls;
      DeliveredStep(calls[k..], st);
      assert calls[k..][1..] == calls[k + 1..];
      ghost var found := Feed(Scan([], st.buf), r.data).frames;
      PublishTwice(old(s.State()), st.frames, found);
      FeedAdds(st, r.data);
      Consume(b, s, r.data);
      st := Feed(st, r.data);
      if r.failed {
        return true;
      }
    }
    DeliveredEnd(calls, st);
    return false;
  }

  lemma DeliveredStart(calls: seq<Read>)
    ensures calls[0..] == calls && FeedAll(START, Delivered(calls)) == FeedAll(START, Delivered(calls[0..]))
  {}

  lemma DeliveredEnd(calls: seq<Read>, st: Scan)
    ensures FeedAll(st, Delivered(calls[|calls|..])) == st
  {}

  lemma PublishTwice(c: Stream.Core, f: seq<Bytes>, g: seq<Bytes>)
    ensures PublishAll(PublishAll(c, f), g) == PublishAll(c, f + g)
  {
    assert c.published + f + g == c.published + (f + g);
  }

  lemma FeedAdds(st: Scan, chunk: Bytes)
    ensures Feed(st, chunk) ==
      Scan(st.frames + Feed(Scan([], st.buf), chunk).frames, Feed(Scan([], st.buf), chunk).buf)
  {
    hide Drain;
    assert st.frames + [] == st.frames;
    assert [] + Drain(st.buf + chunk).frames == Drain(st.buf + chunk).frames;
  }

  /** One connection of the reader loop: its frames, and then its end, which every viewer hears of
      unless the reader itself was stopped. */
  method Connection(calls: seq<Read>, stopped: bool, s: Stream.Stream)
    requires s.Valid() && forall r :: r in calls ==> |r.data| <= CHUNK
    modifies s
    ensures s.Valid()
    ensures var frames, broken := FeedAll(START, Delivered(calls)).frames, exists r :: r in calls && r.failed;
      && s.published == old(s.published) + frames
      && s.err == ((old(s.err) && frames == []) || (broken && !stopped))
      && s.State() == old(s.State()).(published := s.published, err := s.err)
  {
    hide FeedAll, Delivered;
    var failed := ScanJPEGs(calls, s);
    if failed && !stopped {
      s.FailWith();
    }
  }

  lemma DeliveredStep(calls: seq<Read>, st: Scan)
    requires calls != []
    ensures FeedAll(st, Delivered(calls)) ==
      var next := Feed(st, calls[0].data);
      if calls[0].failed then next else FeedAll(next, Delivered(calls[1..]))
  {
    hide Feed;
    assert Delivered(calls)[1..] == if calls[0].failed then [] else Delivered(calls[1..]);
  }
}
