/** Exactly which streams are split the same however they are read, for reads of bounded size. */
module JpegReads {
  import opened Basics
  import opened JpegScan

  // ----- feeding the scanner in pieces -----

  lemma FeedAllStep(st: Scan, chunk: Bytes, more: seq<Bytes>)
    ensures FeedAll(st, [chunk] + more) == FeedAll(Feed(st, chunk), more)
  {
    assert ([chunk] + more)[1..] == more;
  }

  lemma {:induction false} FeedAllConcat(st: Scan, a: seq<Bytes>, b: seq<Bytes>)
    ensures FeedAll(st, a + b) == FeedAll(FeedAll(st, a), b)
    decreases |a|
  {
    hide Feed;
    if a == [] {
      assert a + b == b;
    } else {
      assert a + b == [a[0]] + (a[1..] + b);
      FeedAllStep(st, a[0], a[1..] + b);
      FeedAllConcat(Feed(st, a[0]), a[1..], b);
    }
  }

  lemma {:induction false} ConcatAppend(a: seq<Bytes>, b: seq<Bytes>)
    ensures Concat(a + b) == Concat(a) + Concat(b)
    decreases |a|
  {
    if a == [] {
      assert a + b == b;
    } else {
      assert (a + b)[1..] == a[1..] + b;
      ConcatAppend(a[1..], b);
    }
  }

  lemma {:induction false} EarlierFramesStay(st: Scan, chunks: seq<Bytes>)
    ensures FeedAll(st, chunks).frames == st.frames + FeedAll(Scan([], st.buf), chunks).frames
    decreases |chunks|
  {
    hide Drain;
    if chunks != [] && chunks[0] != [] {
      var d := Drain(st.buf + chunks[0]);
      EarlierFramesStay(Feed(st, chunks[0]), chunks[1..]);
      EarlierFramesStay(Feed(Scan([], st.buf), chunks[0]), chunks[1..]);
      assert [] + d.frames == d.frames;
    } else if chunks != [] {
      EarlierFramesStay(st, chunks[1..]);
    }
  }

  function Singletons(s: Bytes): seq<Bytes> {
    if s == [] then [] else [[s[0]]] + Singletons(s[1..])
  }

  lemma {:induction false} SingletonsCover(s: Bytes)
    ensures Concat(Singletons(s)) == s && ReadsUpTo(Singletons(s), 1)
    decreases |s|
  {
    if s != [] {
      SingletonsCover(s[1..]);
      assert Singletons(s)[1..] == Singletons(s[1..]);
    }
  }

  // ----- no cut yields more pictures than the split -----

  /** A picture lies behind the start of the first frame, and ends no earlier than it. */
  lemma PictureEndsLater(x: Bytes, sp: Span)
    requires sp.lo <= sp.hi <= |x| && IsPicture(x[sp.lo..sp.hi])
    ensures First(x).Some? && First(x).value.0 <= sp.lo && First(x).value.1 <= sp.hi
  {
    var f := x[sp.lo..sp.hi];
    assert Marker(f, SOI, 0) && Marker(f, EOI, |f| - 2);
    assert Marker(x, SOI, sp.lo) && Marker(x, EOI, sp.hi - 2);
    MarkersMakeFrame(x, sp.lo, sp.hi - 2);
  }

  lemma MarkersMakeFrame(x: Bytes, i: nat, j: nat)
    requires Marker(x, SOI, i) && Marker(x, EOI, j) && i + 2 <= j
    ensures First(x).Some? && First(x).value.0 <= i && First(x).value.1 <= j + 2
  {
    var k := Find(x, SOI, 0);
    assert k <= i;
    var l := Find(x, EOI, k + 2);
    assert l <= j;
  }

  lemma {:induction false} SplitIsLargest(x: Bytes, frames: seq<Bytes>, spans: seq<Span>, end: nat)
    requires Slices(x, frames, spans, end)
    ensures |frames| <= |Split(x)|
    decreases |frames|
  {
    hide First, IsPicture, Split;
    if frames != [] {
      assert IsSlice(x, frames[0], spans[0], end);
      PictureEndsLater(x, spans[0]);
      SplitStep(x);
      var p := First(x).value;
      SlicesBehind(x, frames, spans, end, p.1);
      SplitIsLargest(x[p.1..], frames[1..], Back(spans[1..], p.1), end - p.1);
    }
  }

  /** The spans counted from a later origin. */
  function Back(spans: seq<Span>, d: nat): (r: seq<Span>)
    requires forall k :: 0 <= k < |spans| ==> d <= spans[k].lo <= spans[k].hi
    ensures |r| == |spans|
    ensures forall k :: 0 <= k < |r| ==> r[k] == Span(spans[k].lo - d, spans[k].hi - d)
  {
    seq(|spans|, k requires 0 <= k < |spans| => Span(spans[k].lo - d, spans[k].hi - d))
  }

  lemma SlicesFrom(x: Bytes, frames: seq<Bytes>, spans: seq<Span>, end: nat, d: nat)
    requires Slices(x, frames, spans, end) && d <= end
    requires forall k :: 0 <= k < |spans| ==> d <= spans[k].lo <= spans[k].hi
    ensures Slices(x[d..], frames, Back(spans, d), end - d)
  {
    hide IsPicture;
    forall k | 0 <= k < |spans|
      ensures IsSlice(x[d..], frames[k], Back(spans, d)[k], end - d)
    {
      assert IsSlice(x, frames[k], spans[k], end);
      assert x[d..][spans[k].lo - d..spans[k].hi - d] == x[spans[k].lo..spans[k].hi];
    }
    hide IsSlice;
  }

  /** All slices but the first lie behind anything that ends no later than the first. */
  lemma SlicesBehind(x: Bytes, frames: seq<Bytes>, spans: seq<Span>, end: nat, d: nat)
    requires Slices(x, frames, spans, end) && frames != [] && d <= spans[0].hi
    ensures d <= end
    ensures forall k :: 0 <= k < |spans[1..]| ==> d <= spans[1..][k].lo <= spans[1..][k].hi
    ensures Slices(x[d..], frames[1..], Back(spans[1..], d), end - d)
  {
    hide IsPicture;
    assert forall k :: 0 <= k < |spans| ==> IsSlice(x, frames[k], spans[k], end) && spans[k].lo <= spans[k].hi <= end;
    hide IsSlice;
    assert Slices(x, frames[1..], spans[1..], end);
    SlicesFrom(x, frames[1..], spans[1..], end, d);
  }

  // ----- a frame without its first byte is lost, however the rest is read -----

  /** Whatever is published from behind the first byte of the first frame differs from the split. */
  lemma LostForGood(s: Bytes, chunks: seq<Bytes>)
    requires First(s).Some? && Concat(chunks) == s[First(s).value.0 + 1..]
    ensures FeedAll(START, chunks).frames != Split(s)
  {
    hide First, FeedAll, Split, Slices;
    var u := Concat(chunks);
    var frames := FeedAll(START, chunks).frames;
    var end := |u| - |FeedAll(START, chunks).buf|;
    var spans := PublishedFramesAreSlices(chunks);
    SplitStep(s);
    if frames == Split(s) {
      LostFrame(s, u, frames, spans, end);
      assert false;
    }
  }

  lemma LostFrame(s: Bytes, u: Bytes, frames: seq<Bytes>, spans: seq<Span>, end: nat)
    requires First(s).Some? && u == s[First(s).value.0 + 1..] && Slices(u, frames, spans, end)
    requires frames != []
    ensures var p := First(s).value;
      |frames[0]| == p.1 - p.0 ==> |frames| < |Split(s)|
  {
    hide IsPicture, Split;
    var p := First(s).value;
    SplitStep(s);
    assert IsSlice(u, frames[0], spans[0], end);
    if |frames[0]| == p.1 - p.0 {
      StartsBehind(s, spans[0]);
      hide First;
      var d := p.1 - p.0 - 1;
      assert u[d..] == s[p.1..];
      AllBehind(u, frames, spans, end, d);
      SplitIsLargest(u[d..], frames, Back(spans, d), end - d);
    }
  }

  lemma AllBehind(x: Bytes, frames: seq<Bytes>, spans: seq<Span>, end: nat, d: nat)
    requires Slices(x, frames, spans, end) && frames != [] && d <= spans[0].lo
    ensures d <= end
    ensures forall k :: 0 <= k < |spans| ==> d <= spans[k].lo <= spans[k].hi
    ensures Slices(x[d..], frames, Back(spans, d), end - d)
  {
    hide IsPicture;
    assert forall k :: 0 <= k < |spans| ==> IsSlice(x, frames[k], spans[k], end) && spans[k].lo <= spans[k].hi <= end;
    hide IsSlice;
    SlicesFrom(x, frames, spans, end, d);
  }

  /** A picture as long as the first frame that starts behind that frame's first byte starts
      behind the frame. */
  lemma StartsBehind(s: Bytes, sp: Span)
    requires First(s).Some?
    requires var u := s[First(s).value.0 + 1..];
      sp.lo <= sp.hi <= |u| && IsPicture(u[sp.lo..sp.hi]) && sp.hi - sp.lo == First(s).value.1 - First(s).value.0
    ensures First(s).value.1 <= sp.lo + First(s).value.0 + 1
  {
    var p := First(s).value;
    var u := s[p.0 + 1..];
    var f := u[sp.lo..sp.hi];
    var lo := sp.lo + p.0 + 1;
    assert Marker(f, SOI, 0);
    assert f[0] == s[lo] && f[1] == s[lo + 1];
    assert Marker(s, EOI, p.1 - 2);
    if lo < p.1 {
      assert lo <= p.1 - 4;
      var e := p.1 - 2 - lo;
      assert f[e] == s[p.1 - 2] && f[e + 1] == s[p.1 - 1];
      assert Marker(f, EOI, e);
    }
  }

  // ----- dropping a gap -----

  predicate Startless(t: Bytes) { Find(t, SOI, 0) == |t| }

  lemma NoMarkerIn(t: Bytes, k: int)
    requires Startless(t)
    ensures !Marker(t, SOI, k)
  {
    hide Find;
  }

  lemma StartlessSlice(t: Bytes, lo: nat, hi: nat)
    requires lo <= hi <= |t| && Startless(t)
    ensures Startless(t[lo..hi])
  {
    hide Find;
    var k := Find(t[lo..hi], SOI, 0);
    NoMarkerIn(t, lo + k);
  }

  lemma StartlessFeed(st: Scan, chunk: Bytes)
    requires chunk != [] && Startless(st.buf + chunk)
    ensures Feed(st, chunk) == Scan(st.frames, Capped(st.buf + chunk))
  {
    var t := st.buf + chunk;
    assert First(t) == None && Kept(t) == 0;
    hide First, Kept;
    assert t[0..] == t;
    DrainStep(t);
    assert st.frames + [] == st.frames;
  }

  /** One-byte reads of text without a start marker only fill the buffer. */
  lemma {:induction false} FillBuffer(b: Bytes, t: Bytes)
    requires Startless(b + t) && |b + t| <= MAX_FRAME
    ensures FeedAll(Scan([], b), Singletons(t)) == Scan([], b + t)
    decreases |t|
  {
    hide Find, Feed;
    if t == [] {
      assert b + t == b;
    } else {
      var next := b + [t[0]];
      assert b + t == next + t[1..];
      assert next == (b + t)[0..|next|];
      StartlessSlice(b + t, 0, |next|);
      StartlessFeed(Scan([], b), [t[0]]);
      assert Singletons(t)[1..] == Singletons(t[1..]);
      FillBuffer(next, t[1..]);
    }
  }

  /** One stretch: fill the buffer, then go over its limit with one read. */
  lemma DropOnce(t: Bytes, most: nat) returns (chunks: seq<Bytes>)
    requires Startless(t) && MAX_FRAME < |t| <= MAX_FRAME + most
    ensures Concat(chunks) == t && ReadsUpTo(chunks, most) && FeedAll(START, chunks) == START
  {
    hide Startless, Find, Feed;
    var a, b := t[..MAX_FRAME], t[MAX_FRAME..];
    assert a == t[0..MAX_FRAME] && [] + a == a && a + b == t;
    chunks := Singletons(a) + [b];
    SingletonsCover(a);
    ConcatAppend(Singletons(a), [b]);
    OneRead(b);
    StartlessSlice(t, 0, MAX_FRAME);
    FillBuffer([], a);
    FeedAllConcat(START, Singletons(a), [b]);
    StartlessFeed(Scan([], a), b);
    assert FeedAll(Scan([], a), [b]) == Feed(Scan([], a), b) by { FeedAllOne(Scan([], a), b); }
  }

  lemma OneRead(b: Bytes)
    ensures Concat([b]) == b
  {
    assert [b][1..] == [] && b + [] == b;
  }

  lemma FeedAllOne(st: Scan, b: Bytes)
    ensures FeedAll(st, [b]) == Feed(st, b)
  {
    hide Feed;
    assert [b][1..] == [];
  }

  /** The length of the first of k stretches, such that the others fit the rest. */
  function Stretch(k: nat, n: nat, most: nat): (c: nat)
    requires k >= 1 && most >= 1 && Stretches(k, n - 1, most)
    ensures MAX_FRAME < c <= n && c <= MAX_FRAME + most && Stretches(k - 1, n - c - 1, most)
  {
    var rest := (k - 1) * (MAX_FRAME + most);
    assert k * (MAX_FRAME + most) == rest + MAX_FRAME + most;
    assert (k - 1) * (MAX_FRAME + 1) <= rest;
    if n - rest > MAX_FRAME then n - rest else MAX_FRAME + 1
  }

  lemma {:induction false} DropAll(t: Bytes, k: nat, most: nat) returns (chunks: seq<Bytes>)
    requires most >= 1 && Startless(t) && Stretches(k, |t| - 1, most)
    ensures Concat(chunks) == t && ReadsUpTo(chunks, most) && FeedAll(START, chunks) == START
    decreases k
  {
    hide Startless, Feed;
    if k == 0 {
      chunks := [];
    } else {
      var c := Stretch(k, |t|, most);
      hide Stretches;
      assert t[..c] == t[0..c] && t[c..] == t[c..|t|] && t[..c] + t[c..] == t;
      StartlessSlice(t, 0, c);
      StartlessSlice(t, c, |t|);
      var a := DropOnce(t[..c], most);
      var b := DropAll(t[c..], k - 1, most);
      chunks := a + b;
      ConcatAppend(a, b);
      FeedAllConcat(START, a, b);
    }
  }

  // ----- the theorem -----

  lemma FirstOfPrefix(s: Bytes)
    requires First(s).Some?
    ensures First(s[..First(s).value.1]) == First(s) && First([]) == None
  {
    var p := First(s).value;
    var t := s[..p.1];
    assert Marker(t, SOI, p.0) && Marker(t, EOI, p.1 - 2);
    MarkersMakeFrame(t, p.0, p.1 - 2);
    FirstInPrefix(s, p.1);
  }

  /** One-byte reads of the first frame and the gap in front of it publish it and leave nothing. */
  lemma FirstFrameRead(s: Bytes, most: nat)
    requires First(s).Some? && most >= 1
    requires !Deadly(First(s).value.0, most) && First(s).value.1 - First(s).value.0 <= MAX_FRAME + 1
    ensures var p := First(s).value;
      FeedAll(START, Singletons(s[..p.1])) == Scan([s[p.0..p.1]], [])
  {
    hide First, Deadly, FeedAll, Split, Slices;
    var p := First(s).value;
    var t := s[..p.1];
    var chunks := Singletons(t);
    FirstOfPrefix(s);
    SingletonsCover(t);
    SplitStep(t);
    SplitStep([]);
    assert t[p.1..] == [] && t[p.0..p.1] == s[p.0..p.1];
    assert FitsReads(t, most) && Split(t) == [s[p.0..p.1]];
    BoundedScanIsSplit(chunks, most);
    var spans := PublishedFramesAreSlices(chunks);
    FrameFillsText(t, FeedAll(START, chunks), spans);
  }

  lemma FrameFillsText(t: Bytes, st: Scan, spans: seq<Span>)
    requires First(t).Some? && First(t).value.1 == |t|
    requires |st.buf| <= |t| && |st.frames| == 1 && Slices(t, st.frames, spans, |t| - |st.buf|)
    ensures st.buf == []
  {
    hide First, IsPicture;
    assert IsSlice(t, st.frames[0], spans[0], |t| - |st.buf|);
    PictureEndsLater(t, spans[0]);
  }

  lemma {:induction false} OneByteFrames(st: Scan, s: Bytes)
    requires |st.buf| <= MAX_FRAME && forall f :: f in st.frames ==> |f| <= MAX_FRAME + 1
    ensures forall f :: f in FeedAll(st, Singletons(s)).frames ==> |f| <= MAX_FRAME + 1
    decreases |s|
  {
    if s != [] {
      DrainBounds(st.buf + [s[0]]);
      OneByteFrames(Feed(st, [s[0]]), s[1..]);
      assert Singletons(s)[1..] == Singletons(s[1..]);
    }
  }

  /** A stream with a frame of more than MAX_FRAME + 1 bytes loses it when it is read byte by byte. */
  lemma OversizedFrameIsLost(s: Bytes, f: Bytes)
    requires f in Split(s) && |f| > MAX_FRAME + 1
    ensures Concat(Singletons(s)) == s && ReadsUpTo(Singletons(s), 1)
    ensures FeedAll(START, Singletons(s)).frames != Split(s)
  {
    SingletonsCover(s);
    OneByteFrames(START, s);
  }

  /** A stream with a deadly gap in front of its first frame loses that frame under some reads. */
  lemma DeadlyGapIsLost(s: Bytes, most: nat) returns (chunks: seq<Bytes>)
    requires most >= 1 && First(s).Some? && Deadly(First(s).value.0, most)
    ensures Concat(chunks) == s && ReadsUpTo(chunks, most) && FeedAll(START, chunks).frames != Split(s)
  {
    hide First, Stretches, Startless, Split, FeedAll;
    var i := First(s).value.0 + 1;
    var g := i - 1;
    var k: nat :| k >= 1 && Stretches(k, g, most);
    GapIsStartless(s);
    var a := DropAll(s[..i], k, most);
    chunks := a + Singletons(s[i..]);
    DropThenRest(s, a, i, most);
  }

  lemma DropThenRest(s: Bytes, a: seq<Bytes>, i: nat, most: nat)
    requires First(s).Some? && i == First(s).value.0 + 1 && most >= 1
    requires Concat(a) == s[..i] && ReadsUpTo(a, most) && FeedAll(START, a) == START
    ensures var chunks := a + Singletons(s[i..]);
      Concat(chunks) == s && ReadsUpTo(chunks, most) && FeedAll(START, chunks).frames != Split(s)
  {
    hide First, Split, FeedAll, Singletons;
    var u := s[i..];
    SingletonsCover(u);
    ConcatAppend(a, Singletons(u));
    FeedAllConcat(START, a, Singletons(u));
    LostForGood(s, Singletons(u));
    assert s[..i] + u == s;
  }

  lemma GapIsStartless(s: Bytes)
    requires First(s).Some?
    ensures Startless(s[..First(s).value.0 + 1])
  {
    var i := Find(s, SOI, 0);
    hide Find;
    var k := Find(s[..i + 1], SOI, 0);
    NoMarkerBefore(s, i, k);
  }

  lemma NoMarkerBefore(s: Bytes, i: nat, k: int)
    requires i == Find(s, SOI, 0) && i < |s|
    ensures !Marker(s[..i + 1], SOI, k)
  {
    hide Find;
    assert 0 <= k < i ==> !Marker(s, SOI, k);
    assert 0 <= k < i ==> s[..i + 1][k] == s[k] && s[..i + 1][k + 1] == s[k + 1];
  }

  lemma {:induction false} UnfitHasBadReads(s: Bytes, most: nat) returns (chunks: seq<Bytes>)
    requires most >= 1 && !FitsReads(s, most)
    ensures Concat(chunks) == s && ReadsUpTo(chunks, most) && FeedAll(START, chunks).frames != Split(s)
    decreases |s|
  {
    hide First, Drain, Split, FeedAll, Deadly;
    var p := First(s).value;
    var f := s[p.0..p.1];
    SplitStep(s);
    if Deadly(p.0, most) {
      chunks := DeadlyGapIsLost(s, most);
    } else if p.1 - p.0 > MAX_FRAME + 1 {
      chunks := Singletons(s);
      assert Split(s)[0] == f;
      OversizedFrameIsLost(s, f);
    } else {
      var more := UnfitHasBadReads(s[p.1..], most);
      chunks := AfterFirstFrame(s, more, most);
    }
  }

  lemma AfterFirstFrame(s: Bytes, more: seq<Bytes>, most: nat) returns (chunks: seq<Bytes>)
    requires First(s).Some? && most >= 1
    requires !Deadly(First(s).value.0, most) && First(s).value.1 - First(s).value.0 <= MAX_FRAME + 1
    requires Concat(more) == s[First(s).value.1..] && ReadsUpTo(more, most)
    requires FeedAll(START, more).frames != Split(s[First(s).value.1..])
    ensures Concat(chunks) == s && ReadsUpTo(chunks, most) && FeedAll(START, chunks).frames != Split(s)
  {
    hide First, Drain, Split, FeedAll, Deadly;
    var p := First(s).value;
    var t, f := s[..p.1], s[p.0..p.1];
    SplitStep(s);
    SingletonsCover(t);
    chunks := Singletons(t) + more;
    ConcatAppend(Singletons(t), more);
    assert t + s[p.1..] == s;
    FirstFrameRead(s, most);
    FeedAllConcat(START, Singletons(t), more);
    EarlierFramesStay(Scan([f], []), more);
    assert ([f] + FeedAll(START, more).frames)[1..] == FeedAll(START, more).frames;
    assert Split(s)[1..] == Split(s[p.1..]);
  }

  /** Every way of reading s, at most `most` bytes at a time, gives the frames of the split. */
  ghost predicate ReadsDoNotMatter(s: Bytes, most: nat) {
    forall chunks :: Concat(chunks) == s && ReadsUpTo(chunks, most) ==> FeedAll(START, chunks).frames == Split(s)
  }

  /** Which gaps and frames are harmless, exactly, for every size of reads. */
  lemma ReadsDoNotMatterIffFits(s: Bytes, most: nat)
    requires most >= 1
    ensures ReadsDoNotMatter(s, most) <==> FitsReads(s, most)
  {
    if FitsReads(s, most) {
      forall chunks | Concat(chunks) == s && ReadsUpTo(chunks, most)
        ensures FeedAll(START, chunks).frames == Split(s)
      {
        BoundedScanIsSplit(chunks, most);
      }
    } else {
      var chunks := UnfitHasBadReads(s, most);
    }
  }

  /** For the reads of the program a gap is harmless below MAX_FRAME, deadly for one read's length
      from there, harmless again up to twice that, and deadly at any length in the end. */
  lemma ProgramGaps(g: nat)
    ensures MAX_FRAME == 8 * 1024 * 1024 && CHUNK == 32 * 1024
    ensures g < MAX_FRAME ==> !Deadly(g, CHUNK)
    ensures MAX_FRAME <= g < MAX_FRAME + CHUNK ==> Deadly(g, CHUNK)
    ensures MAX_FRAME + CHUNK <= g <= 2 * MAX_FRAME ==> !Deadly(g, CHUNK)
    ensures g >= 257 * (MAX_FRAME + 1) ==> Deadly(g, CHUNK)
  {
    forall k: nat | k >= 1
      ensures g < MAX_FRAME ==> !Stretches(k, g, CHUNK)
      ensures MAX_FRAME + CHUNK <= g <= 2 * MAX_FRAME ==> !Stretches(k, g, CHUNK)
    {}
    assert MAX_FRAME <= g < MAX_FRAME + CHUNK ==> Stretches(1, g, CHUNK);
    var k := (g + 1) / (MAX_FRAME + 1);
    assert g >= 257 * (MAX_FRAME + 1) ==> k >= 257 && Stretches(k, g, CHUNK);
  }
}
