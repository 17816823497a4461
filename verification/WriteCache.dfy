/** The pending-write cache of one handle (server/writecache.go) and its spill driver (server/api.go). */
module WriteCacheModel {
  import opened Arith
  import opened Bytes
  import opened Results
  import opened Overlay
  import opened Spans

  const SPILL_THRESHOLD: nat := 4194304  // 4 MiB
  const SPILL_CARRY: nat := 262144       // 256 KiB
  const MAX_UNARY_READ: nat := 67108864  // 64 MiB

  /* ---- truncation ---- */

  function ClipOne(s: Span, n: nat): Span
    requires s.start < n
  {
    if s.End() > n then Span(s.start, s.data[..n - s.start]) else s
  }

  /** The spans a truncation to `n` keeps, cut at `n`. */
  function Clip(spans: seq<Span>, n: nat): seq<Span> {
    if spans == [] then []
    else
      var last := spans[|spans| - 1];
      var kept := Clip(spans[..|spans| - 1], n);
      if last.start < n then kept + [ClipOne(last, n)] else kept
  }

  lemma {:induction false} ClipTop(spans: seq<Span>, n: nat, i: nat)
    requires i < n
    ensures Top(Clip(spans, n), i) == Top(spans, i)
  {
    if spans != [] {
      var last, rest := spans[|spans| - 1], spans[..|spans| - 1];
      ClipTop(rest, n, i);
      assert spans == rest + [last];
      TopSnoc(rest, last, i);
      if last.start < n {
        TopSnoc(Clip(rest, n), ClipOne(last, n), i);
      }
    }
  }

  /** Which spans a cut keeps, and in which order. */
  lemma {:induction false} ClipFrom(spans: seq<Span>, n: nat) returns (at: seq<nat>)
    ensures |at| == |Clip(spans, n)|
    ensures forall k :: 0 <= k < |at| ==> at[k] < |spans| && spans[at[k]].start < n && Clip(spans, n)[k] == ClipOne(spans[at[k]], n)
    ensures forall j, k :: 0 <= j < k < |at| ==> at[j] < at[k]
    ensures forall m :: 0 <= m < |spans| && spans[m].start < n ==> m in at
  {
    if spans == [] {
      at := [];
    } else {
      var top := |spans| - 1;
      at := ClipFrom(spans[..top], n);
      if spans[top].start < n {
        at := at + [top];
      }
    }
  }

  lemma ClipShape(spans: seq<Span>, n: nat)
    requires Filled(spans)
    ensures Filled(Clip(spans, n)) && Below(Clip(spans, n), n)
    ensures forall k :: 0 <= k < |Clip(spans, n)| ==> Clip(spans, n)[k].start < n
    ensures Clip(spans, n) == [] <==> From(spans, n)
    ensures forall floor: nat :: From(spans, floor) ==> From(Clip(spans, n), floor)
  {
    hide Clip;
    var c := Clip(spans, n);
    var at := ClipFrom(spans, n);
    if c != [] {
      assert spans[at[0]].start < n;
    }
  }

  lemma ClipOrder(spans: seq<Span>, n: nat)
    ensures ByStart(spans) ==> ByStart(Clip(spans, n))
    ensures WellFormed(spans) ==> WellFormed(Clip(spans, n))
  {
    hide Clip;
    var c := Clip(spans, n);
    var at := ClipFrom(spans, n);
    if ByStart(spans) {
      forall j, k | 0 <= j < k < |c| ensures InOrder(c, j, k) {
        assert InOrder(spans, at[j], at[k]);
      }
    }
    if WellFormed(spans) {
      forall j, k | 0 <= j < k < |c| ensures Apart(c, j, k) {
        assert Apart(spans, at[j], at[k]);
      }
    }
  }

  lemma ClipTidy(spans: seq<Span>, settled: nat, n: nat)
    requires Tidy(spans, settled)
    ensures Tidy(Clip(spans, n), settled) && (n <= settled ==> ByStart(Clip(spans, n)))
  {
    hide Clip;
    ClipOrder(spans, n);
    if !ByStart(spans) {
      var rest := spans[1..];
      assert spans == [spans[0]] + rest;
      ClipPrepend(spans[0], rest, n);
      ClipOrder(rest, n);
      if spans[0].start < n {
        assert Clip(spans, n)[1..] == Clip(rest, n);
      } else {
        assert Clip(spans, n) == Clip(rest, n);
      }
    }
  }

  lemma {:induction false} ClipPrepend(s: Span, spans: seq<Span>, n: nat)
    ensures Clip([s] + spans, n) == (if s.start < n then [ClipOne(s, n)] else []) + Clip(spans, n)
  {
    if spans != [] {
      var top := |spans| - 1;
      assert ([s] + spans)[..top + 1] == [s] + spans[..top];
      ClipPrepend(s, spans[..top], n);
    }
  }

  predicate OnBoundary(chunks: seq<Chunk>, n: nat) {
    exists j :: 0 <= j <= |chunks| && |Concat(chunks[..j])| == n
  }

  lemma ConcatGrows(chunks: seq<Chunk>, j: nat, k: nat)
    requires j <= k <= |chunks|
    ensures |Concat(chunks[..j])| <= |Concat(chunks[..k])|
  {
    ConcatPrefix(chunks[..k], j);
    assert chunks[..k][..j] == chunks[..j];
  }

  /** The leading chunks that end at or below `n`. */
  method WholeChunks(chunks: seq<Chunk>, n: nat) returns (keep: seq<Chunk>, size: nat)
    requires n <= |Concat(chunks)|
    ensures keep <= chunks && size == |Concat(keep)| <= n
    ensures n < |Concat(chunks)| ==> |keep| < |chunks| && |Concat(chunks[..|keep| + 1])| > n
  {
    keep, size := [], 0;
    var i := 0;
    while i < |chunks| && size + |chunks[i].data| <= n
      invariant i <= |chunks| && keep == chunks[..i] && size == |Concat(keep)| <= n
    {
      ConcatStep(chunks, i);
      keep, size := keep + [chunks[i]], size + |chunks[i].data|;
      i := i + 1;
    }
    if i < |chunks| {
      ConcatStep(chunks, i);
    } else {
      assert chunks[..i] == chunks;
    }
  }

  lemma ConcatStep(chunks: seq<Chunk>, i: nat)
    requires i < |chunks|
    ensures chunks[..i + 1] == chunks[..i] + [chunks[i]] && Concat(chunks[..i + 1]) == Concat(chunks[..i]) + chunks[i].data
  {
    assert chunks[..i + 1] == chunks[..i] + [chunks[i]];
    ConcatAppend(chunks[..i], [chunks[i]]);
    assert Concat([chunks[i]]) == chunks[i].data;
  }

  /** A truncation into the middle of a settled chunk, with dirty spans below it. */
  predicate Collides(c: Cache, n: nat) {
    n < c.settledLen && !OnBoundary(c.settled, n) && !From(c.spans, n)
  }

  /** `keep` is what a cut at `n` leaves of the settled chunks: those that end at or below it. */
  predicate Cuts(c: Cache, n: nat, keep: seq<Chunk>) {
    && keep <= c.settled && |Concat(keep)| <= n
    && if n < c.settledLen then |keep| < |c.settled| && |Concat(c.settled[..|keep| + 1])| > n else keep == c.settled
  }

  lemma CutsBoundary(c: Cache, n: nat, keep: seq<Chunk>)
    requires Cuts(c, n, keep) && n < c.settledLen
    ensures |Concat(keep)| == n <==> OnBoundary(c.settled, n)
  {
    var i := |keep|;
    assert keep == c.settled[..i];
    forall j | 0 <= j <= |c.settled| && |Concat(c.settled[..j])| == n ensures |Concat(keep)| == n {
      if j > i {
        ConcatGrows(c.settled, i + 1, j);
      } else {
        ConcatGrows(c.settled, j, i);
      }
    }
  }

  /** The cache Truncate leaves once the cut chunk was read back. */
  function Truncated(c: Cache, n: nat, keep: seq<Chunk>): Cache
    requires Sound(c) && Cuts(c, n, keep)
  {
    var ns := |Concat(keep)|;
    var cut := Clip(c.spans, n);
    Cache(c.base, Min(c.baseLen, n), keep, ns, n,
          if ns < n < c.settledLen then [Span(ns, Concat(c.settled)[ns..n])] + cut else cut)
  }

  /** What every operation keeps of a handle's cache. */
  predicate Ordered(c: Cache) {
    Sound(c) && Tidy(c.spans, c.settledLen)
  }

  lemma TruncatedOrdered(c: Cache, n: nat, keep: seq<Chunk>)
    requires Sound(c) && Cuts(c, n, keep)
    ensures Sound(Truncated(c, n, keep)) && (Ordered(c) ==> Ordered(Truncated(c, n, keep)))
  {
    hide Concat, Clip;
    var cut := Clip(c.spans, n);
    ClipShape(c.spans, n);
    if Ordered(c) {
      ClipTidy(c.spans, c.settledLen, n);
      var spans := Truncated(c, n, keep).spans;
      assert |Concat(keep)| < n < c.settledLen ==> spans[1..] == cut;
    }
  }

  lemma TruncatedUnder(c: Cache, n: nat, keep: seq<Chunk>, i: nat)
    requires Sound(c) && Cuts(c, n, keep) && i < n
    requires Sound(Truncated(c, n, keep)) && (i < |Concat(keep)| || n >= c.settledLen)
    ensures Under(Truncated(c, n, keep), i) == Under(c, i)
  {
    if i < |Concat(keep)| {
      ConcatPrefix(c.settled, |keep|);
      assert c.settled[..|keep|] == keep;
      assert Concat(c.settled)[..|Concat(keep)|][i] == Concat(keep)[i];
    }
  }

  /** Below the cut the spans, the kept chunks and the chunk read back show what was there before. */
  lemma TruncatedByte(c: Cache, n: nat, keep: seq<Chunk>, i: nat)
    requires Sound(c) && Cuts(c, n, keep) && i < n && Sound(Truncated(c, n, keep))
    ensures ByteAt(Truncated(c, n, keep), i) == ByteAt(c, i)
  {
    hide Concat, Clip, Top;
    var ns := |Concat(keep)|;
    ClipTop(c.spans, n, i);
    if ns < n < c.settledLen {
      TopPrepend(Span(ns, Concat(c.settled)[ns..n]), Clip(c.spans, n), i);
    }
    if i < ns || n >= c.settledLen {
      TruncatedUnder(c, n, keep, i);
    }
  }

  /** A cache of `n` bytes that shows below `n` what `c` does is the resized file, unless bytes that were cut off come back. */
  lemma ResizedContent(c: Cache, n: nat, d: Cache)
    requires Sound(c) && Sound(d) && d.length == n && forall i :: 0 <= i < n ==> ByteAt(d, i) == ByteAt(c, i)
    ensures Content(d) == Resize(Content(c), n) <==> Quiet(c, n)
  {
    var flat := Resize(Content(c), n);
    forall i | c.length <= i < n ensures ByteAt(d, i) == Under(c, i) && flat[i] == 0 {
      TopMiss(c.spans, i);
    }
    if Quiet(c, n) {
      assert Content(d) == flat;
    } else {
      var i :| c.length <= i < n && i < c.settledLen && Concat(c.settled)[i] != 0;
      assert Content(d)[i] != flat[i];
    }
  }

  lemma TruncatedContent(c: Cache, n: nat, keep: seq<Chunk>)
    requires Sound(c) && Cuts(c, n, keep)
    ensures Sound(Truncated(c, n, keep)) && (Content(Truncated(c, n, keep)) == Resize(Content(c), n) <==> Quiet(c, n))
  {
    hide Concat, Clip, Content;
    var d := Truncated(c, n, keep);
    TruncatedOrdered(c, n, keep);
    forall i | 0 <= i < n ensures ByteAt(d, i) == ByteAt(c, i) {
      TruncatedByte(c, n, keep, i);
    }
    ResizedContent(c, n, d);
  }

  /** The cache Truncate leaves when the cut chunk cannot be read back: the settled chunks still reach past the file. */
  function Stranded(c: Cache, n: nat): Cache {
    c.(baseLen := Min(c.baseLen, n), length := n, spans := Clip(c.spans, n))
  }

  /** The file has the new size all the same. */
  lemma StrandedContent(c: Cache, n: nat)
    requires Ordered(c)
    ensures Ordered(Stranded(c, n)) && (Content(Stranded(c, n)) == Resize(Content(c), n) <==> Quiet(c, n))
    ensures WellFormed(c.spans) ==> WellFormed(Stranded(c, n).spans)
    ensures From(c.spans, c.settledLen) ==> From(Stranded(c, n).spans, c.settledLen)
  {
    hide Concat, Clip, Content, Top;
    var d := Stranded(c, n);
    ClipShape(c.spans, n);
    ClipOrder(c.spans, n);
    ClipTidy(c.spans, c.settledLen, n);
    forall i | 0 <= i < n ensures ByteAt(d, i) == ByteAt(c, i) {
      ClipTop(c.spans, n, i);
    }
    ResizedContent(c, n, d);
  }

  lemma {:induction false} ClipTwice(spans: seq<Span>, n: nat)
    ensures Clip(Clip(spans, n), n) == Clip(spans, n)
  {
    if spans != [] {
      ClipTwice(spans[..|spans| - 1], n);
    }
  }

  /** Repeating a truncation that failed, once the chunk can be read, leaves what it would have left the first time. */
  lemma TruncationRetried(c: Cache, n: nat, keep: seq<Chunk>)
    requires Sound(c) && n < c.settledLen && Cuts(c, n, keep)
    ensures Sound(Stranded(c, n)) && Cuts(Stranded(c, n), n, keep) && Truncated(Stranded(c, n), n, keep) == Truncated(c, n, keep)
  {
    ClipShape(c.spans, n);
    ClipTwice(c.spans, n);
  }

  lemma TruncatedShape(c: Cache, n: nat, keep: seq<Chunk>)
    requires Valid(c) && Cuts(c, n, keep)
    ensures WellFormed(Truncated(c, n, keep).spans) <==> !Collides(c, n)
  {
    var cut := Clip(c.spans, n);
    ClipShape(c.spans, n);
    ClipOrder(c.spans, n);
    if n < c.settledLen {
      CutsBoundary(c, n, keep);
      if |Concat(keep)| < n {
        var spans := Truncated(c, n, keep).spans;
        if cut == [] {
          assert |spans| == 1;
        } else {
          assert spans[1] == cut[0];
          assert !Apart(spans, 0, 1);
        }
      }
    }
  }

  lemma TruncatedAbove(c: Cache, n: nat, keep: seq<Chunk>)
    requires Sound(c) && Cuts(c, n, keep) && From(c.spans, c.settledLen)
    ensures From(Truncated(c, n, keep).spans, Truncated(c, n, keep).settledLen)
  {
    ClipShape(c.spans, n);
    assert n < c.settledLen ==> From(c.spans, n);
  }

  /* ---- writing ---- */

  /** The write shows exactly, however the sort treats equal starts. */
  ghost predicate Faithful(spans: seq<Span>, off: nat, data: Bytes) {
    data == [] || HasFast(spans, off, off + |data|) || Keeps(spans, off, data)
  }

  /** On a well-formed list every write is faithful. */
  lemma WellFormedFaithful(spans: seq<Span>, off: nat, data: Bytes)
    requires WellFormed(spans)
    ensures Faithful(spans, off, data)
  {
    if data != [] {
      WellFormedKeeps(spans, off, data);
    }
  }

  /** A dirty byte of the cut chunk that differs from the settled one, in a span that starts no higher than the chunk, when
      the write lies behind what the cut left of that span, or below the chunk. */
  predicate Uncovers(c: Cache, n: nat, ns: nat, s: Span, i: nat, off: nat, end: nat)
    requires n <= |Concat(c.settled)|
  {
    && s.start <= ns <= i < n && s.Covers(i) && ByteOf(s, i) != Concat(c.settled)[i]
    && (Min(s.End(), n) < off || end < ns)
  }

  ghost predicate UncoversAny(c: Cache, n: nat, ns: nat, off: nat, end: nat)
    requires n <= |Concat(c.settled)|
  {
    exists s, i: nat :: s in c.spans && Uncovers(c, n, ns, s, i, off, end)
  }

  ghost predicate UncoversLow(c: Cache, n: nat, ns: nat, off: nat, end: nat)
    requires n <= |Concat(c.settled)|
  {
    exists s, i: nat :: s in c.spans && s.start < ns && Uncovers(c, n, ns, s, i, off, end)
  }

  lemma ClipHas(spans: seq<Span>, n: nat, s: Span)
    requires s in spans && s.start < n
    ensures ClipOne(s, n) in Clip(spans, n)
  {
    var at := ClipFrom(spans, n);
    var m :| 0 <= m < |spans| && spans[m] == s;
    var k :| 0 <= k < |at| && at[k] == m;
    assert Clip(spans, n)[k] == ClipOne(s, n);
  }

  lemma ClipOf(spans: seq<Span>, n: nat, t: Span) returns (s: Span)
    requires t in Clip(spans, n)
    ensures s in spans && s.start < n && t == ClipOne(s, n)
  {
    var at := ClipFrom(spans, n);
    var k :| 0 <= k < |at| && Clip(spans, n)[k] == t;
    s := spans[at[k]];
  }

  /** The dirty bytes a write exposes are the ones it uncovers in the cache before the cut. */
  lemma ExposedByCut(c: Cache, n: nat, ns: nat, back: Span, off: nat, end: nat)
    requires n <= |Concat(c.settled)| && ns < n && back == Span(ns, Concat(c.settled)[ns..n])
    ensures Exposes(back, Clip(c.spans, n), off, end) <==> UncoversAny(c, n, ns, off, end)
    ensures UncoversLow(c, n, ns, off, end) ==> Buries(back, Clip(c.spans, n), off, end)
  {
    hide Concat, Clip;
    if UncoversAny(c, n, ns, off, end) {
      var s, i: nat :| s in c.spans && Uncovers(c, n, ns, s, i, off, end);
      ClipHas(c.spans, n, s);
      assert Exposed(back, ClipOne(s, n), i, off, end);
    }
    if UncoversLow(c, n, ns, off, end) {
      var s, i: nat :| s in c.spans && s.start < ns && Uncovers(c, n, ns, s, i, off, end);
      ClipHas(c.spans, n, s);
      assert Buried(back, ClipOne(s, n), i, off, end);
    }
    if Exposes(back, Clip(c.spans, n), off, end) {
      var t, i: nat :| t in Clip(c.spans, n) && Exposed(back, t, i, off, end);
      var s := ClipOf(c.spans, n, t);
      assert Uncovers(c, n, ns, s, i, off, end);
    }
  }

  /** After a truncation that collides, the next write gives the flat file, however the sort treats equal starts, if and
      only if it uncovers no settled byte; where the covering span starts below the cut chunk the byte is lost for certain. */
  lemma WriteAfterCollision(c: Cache, n: nat, keep: seq<Chunk>, off: nat, data: Bytes)
    requires Valid(c) && Collides(c, n) && Cuts(c, n, keep) && data != []
    ensures Faithful(Truncated(c, n, keep).spans, off, data) <==> !UncoversAny(c, n, |Concat(keep)|, off, off + |data|)
    ensures UncoversLow(c, n, |Concat(keep)|, off, off + |data|) ==>
              var spans := Truncated(c, n, keep).spans; !HasFast(spans, off, off + |data|) && Loses(spans, off, data)
  {
    hide Concat, Clip, Keeps, Loses, HasFast, Exposes, Buries, UncoversAny, UncoversLow, OnBoundary;
    var ns, end, cut := |Concat(keep)|, off + |data|, Clip(c.spans, n);
    CutsBoundary(c, n, keep);
    ClipShape(c.spans, n);
    ClipOrder(c.spans, n);
    var back := Span(ns, Concat(c.settled)[ns..n]);
    assert Truncated(c, n, keep).spans == [back] + cut;
    assert Collided(back, cut);
    CollidedKeeps(back, cut, off, data);
    ExposedByCut(c, n, ns, back, off, end);
    if HasFast([back] + cut, off, end) {
      CollidedFast(back, cut, off, data);
    }
    if UncoversLow(c, n, ns, off, end) {
      LowIsAny(c, n, ns, off, end);
    }
  }

  lemma LowIsAny(c: Cache, n: nat, ns: nat, off: nat, end: nat)
    requires n <= |Concat(c.settled)| && UncoversLow(c, n, ns, off, end)
    ensures UncoversAny(c, n, ns, off, end)
  {
  }

  method ClipSpans(spans: seq<Span>, n: nat) returns (keep: seq<Span>)
    ensures keep == Clip(spans, n)
  {
    keep := [];
    for k := 0 to |spans|
      invariant keep == Clip(spans[..k], n)
    {
      assert spans[..k + 1][..k] == spans[..k];
      if spans[k].start < n {
        keep := keep + [ClipOne(spans[k], n)];
      }
    }
    assert spans[..|spans|] == spans;
  }

  /* ---- reading ---- */

  function ShownAt(spans: seq<Span>, i: nat, under: Byte): Byte {
    match Top(spans, i)
    case Some(b) => b
    case None => under
  }

  /** The last loop of readLocked: dirty bytes are copied over whatever lies below. */
  method CopySpans(spans: seq<Span>, off: nat, under: Bytes) returns (out: Bytes)
    ensures |out| == |under|
    ensures forall i :: 0 <= i < |out| ==> out[i] == ShownAt(spans, off + i, under[i])
  {
    out := under;
    for k := 0 to |spans|
      invariant |out| == |under|
      invariant forall i :: 0 <= i < |out| ==> out[i] == ShownAt(spans[..k], off + i, under[i])
    {
      var sp := spans[k];
      var low, high := Max(off, sp.start), Min(off + |out|, sp.End());
      assert spans[..k + 1][..k] == spans[..k];
      if high > low {
        out := Overwrite(out, low - off, sp.data[low - sp.start..high - sp.start]);
      }
    }
    assert spans[..|spans|] == spans;
  }

  /* ---- spilling ---- */

  /** storeChunks: chunks that tile the bytes it was given, or an error. */
  type Store = (nat, Bytes) -> Option<seq<Chunk>>

  ghost predicate Tiling(store: Store) {
    forall off: nat, data: Bytes :: store(off, data).Some? ==> Tiles(store(off, data).value, data)
  }

  predicate Tiles(chunks: seq<Chunk>, data: Bytes) {
    Concat(chunks) == data && forall k :: 0 <= k < |chunks| ==> chunks[k].data != []
  }

  /** The cache after the first `n` bytes of its leading span have become settled chunks. */
  function Spilled(c: Cache, placements: seq<Chunk>, n: nat): Cache
    requires c.spans != [] && n < |c.spans[0].data|
  {
    c.(settled := c.settled + placements, settledLen := c.settledLen + n,
       spans := [Span(c.spans[0].start + n, c.spans[0].data[n..])] + c.spans[1..])
  }

  lemma SpillKeepsContent(c: Cache, placements: seq<Chunk>, n: nat)
    requires Ordered(c) && c.spans != [] && c.spans[0].start == c.settledLen && n < |c.spans[0].data|
    requires Concat(placements) == c.spans[0].data[..n]
    ensures var d := Spilled(c, placements, n);
            Ordered(d) && Content(d) == Content(c) && (WellFormed(c.spans) ==> WellFormed(d.spans))
  {
    hide Top;
    var d, lead, rest := Spilled(c, placements, n), c.spans[0], c.spans[1..];
    assert c.spans == [lead] + rest && d.spans[1..] == rest;
    ConcatAppend(c.settled, placements);
    if ByStart(c.spans) {
      forall j, k | 0 <= j < k < |rest| ensures InOrder(rest, j, k) {
        assert InOrder(c.spans, j + 1, k + 1);
      }
    }
    assert Sound(d);
    forall i | 0 <= i < c.length ensures ByteAt(d, i) == ByteAt(c, i) {
      TopPrepend(lead, rest, i);
      TopPrepend(d.spans[0], rest, i);
    }
    assert Content(d) == Content(c);
    if WellFormed(c.spans) {
      forall j, k | 0 <= j < k < |d.spans| ensures Apart(d.spans, j, k) {
        assert Apart(c.spans, j, k);
      }
    }
  }

  lemma SpillAbove(c: Cache, placements: seq<Chunk>, n: nat)
    requires WellFormed(c.spans) && c.spans != [] && c.spans[0].start == c.settledLen && n < |c.spans[0].data|
    ensures From(Spilled(c, placements, n).spans, c.settledLen + n)
  {
    var d := Spilled(c, placements, n);
    forall k | 0 < k < |d.spans| ensures d.spans[k].start >= c.settledLen + n {
      assert Apart(c.spans, 0, k);
    }
  }

  class WriteCache {
    var base: seq<Chunk>
    var baseLen: nat
    var settled: seq<Chunk>
    var settledLen: nat
    var length: nat
    var spans: seq<Span>

    function State(): Cache
      reads this
    {
      Cache(base, baseLen, settled, settledLen, length, spans)
    }

    /** No dirty byte lies below the settled prefix. */
    predicate Above()
      reads this
    {
      From(spans, settledLen)
    }

    constructor (version: seq<Chunk>)
      ensures Valid(State()) && Whole(State()) && Content(State()) == Concat(version) && Above()
      ensures base == version && settled == [] && settledLen == 0
    {
      base, settled, settledLen, spans := version, [], 0, [];
      var sum := 0;
      for i := 0 to |version|
        invariant sum == |Concat(version[..i])|
      {
        assert version[..i + 1] == version[..i] + [version[i]];
        ConcatAppend(version[..i], [version[i]]);
        assert Concat([version[i]]) == version[i].data;
        sum := sum + |version[i].data|;
      }
      assert version[..|version|] == version;
      baseLen, length := sum, sum;
      new;
      assert Content(State()) == Concat(version);
    }

    /** writeLocked: exactly when the write is faithful, whatever the sort does with equal starts, and lets no byte come back
        that a failed truncation cut off, the flat write. On well-formed spans, whatever the order and overlap of earlier
        writes, it is faithful. */
    method WriteAt(off: nat, data: Bytes)
      requires Ordered(State())
      modifies this`spans, this`length
      ensures Ordered(State())
      ensures old(Faithful(spans, off, data)) ==>
                (Content(State()) == FlatWrite(old(Content(State())), off, data) <==> data == [] || old(Quiet(State(), off)))
      ensures old(data != [] && !HasFast(spans, off, off + |data|) && Loses(spans, off, data)) ==>
                Content(State()) != FlatWrite(old(Content(State())), off, data)
      ensures old(WellFormed(spans)) ==> WellFormed(spans) && old(Faithful(spans, off, data))
      ensures old(Above()) ==> (Above() <==> data == [] || off >= settledLen)
      ensures old(length) <= length
    {
      hide Overlays, Keeps, Loses, Rebuilt, HasFast, Reaches;
      if data == [] {
        return;
      }
      ghost var before := State();
      var done, after := WriteInPlace(spans, off, data, settledLen);
      if !done {
        after := WriteMerging(spans, off, data);
        MergedMeaning(before, off, data, after);
      }
      if WellFormed(spans) {
        WellFormedFaithful(spans, off, data);
      }
      WriteMeaning(before, off, data, after);
      spans := after;
      if off + |data| > length {
        length := off + |data|;
      }
    }

    /** Truncate. A failed read of the cut chunk is reported after the length and the spans changed, so the file has the new
        size either way. */
    method Truncate(n: nat, stored: bool) returns (ok: bool)
      requires Ordered(State())
      modifies this
      ensures Ordered(State()) && (Content(State()) == Resize(old(Content(State())), n) <==> old(Quiet(State(), n)))
      ensures ok ==> Whole(State()) && Cuts(old(State()), n, settled) && State() == Truncated(old(State()), n, settled)
      ensures ok && old(WellFormed(spans)) ==> (WellFormed(spans) <==> !old(Collides(State(), n)))
      ensures old(Above()) ==> Above()
      ensures ok <==> stored || n >= old(settledLen) || old(OnBoundary(settled, n))
      ensures !ok ==> !Whole(State()) && State() == Stranded(old(State()), n) && (old(WellFormed(spans)) ==> WellFormed(spans))
    {
      hide Concat, Clip, OnBoundary, Content, Tidy;
      ghost var before := State();
      length := n;
      spans := ClipSpans(spans, n);
      if baseLen > n {
        baseLen := n;
      }
      if settledLen > n {
        var whole, ns := WholeChunks(settled, n);
        CutsBoundary(before, n, whole);
        if ns < n {
          if !stored {
            StrandedContent(before, n);
            return false;
          }
          spans := [Span(ns, Concat(settled)[ns..n])] + spans;
        }
        settled, settledLen := whole, ns;
      }
      assert State() == Truncated(before, n, settled);
      TruncatedContent(before, n, settled);
      TruncatedOrdered(before, n, settled);
      if WellFormed(before.spans) {
        TruncatedShape(before, n, settled);
      }
      if From(before.spans, before.settledLen) {
        TruncatedAbove(before, n, settled);
      }
      return true;
    }

    /** readLocked: exactly the requested part of the logical file, short at its end. */
    method ReadAt(off: nat, len: int, stored: bool) returns (r: Result<Bytes>)
      requires Sound(State())
      ensures var end := Min(off + len, length);
              if end <= off then r == Ok([])
              else if end - off > MAX_UNARY_READ then r == Err
              else if stored then r == Ok(Content(State())[off..end])
              else r == Err || r == Ok(Content(State())[off..end])
    {
      var end := Min(off + len, length);
      if end <= off {
        return Ok([]);
      }
      if end - off > MAX_UNARY_READ {
        return Err;
      }
      r := ReadUnder(off, end, stored);
      if r.Ok? {
        var out := CopySpans(spans, off, r.value);
        assert out == Content(State())[off..end];
        r := Ok(out);
      }
    }

    /** The settled and the base part of readLocked, over a zero-filled result. */
    method ReadUnder(off: nat, end: nat, stored: bool) returns (r: Result<Bytes>)
      requires Sound(State()) && off < end <= length
      ensures stored ==> r.Ok?
      ensures r.Ok? ==> |r.value| == end - off && forall i :: 0 <= i < end - off ==> r.value[i] == Under(State(), off + i)
    {
      hide Concat;
      var out := Zeros(end - off);
      if settledLen > off {
        if !stored {
          return Err;
        }
        out := Overwrite(out, 0, Concat(settled)[off..Min(end, settledLen)]);
      }
      var low, high := Max(off, settledLen), Min(end, baseLen);
      if high > low {
        if !stored {
          return Err;
        }
        out := Overwrite(out, low - off, Concat(base)[low..high]);
      }
      return Ok(out);
    }

    /** spillPrefix: the dirty bytes to settle now, leaving a carry behind. */
    method SpillPrefix() returns (r: Option<Bytes>)
      requires Ordered(State())
      ensures r.Some? <==> spans != [] && spans[0].start == settledLen && |spans[0].data| > SPILL_THRESHOLD
      ensures r.Some? ==> r.value == spans[0].data[..|spans[0].data| - SPILL_CARRY]
    {
      if spans == [] || spans[0].start != settledLen || |spans[0].data| <= SPILL_THRESHOLD {
        return None;
      }
      return Some(spans[0].data[..|spans[0].data| - SPILL_CARRY]);
    }

    /** commitSpill: chunks of the leading span's bytes move below it; the file stays the same. */
    method CommitSpill(placements: seq<Chunk>, n: nat)
      requires Ordered(State()) && spans != [] && spans[0].start == settledLen && n < |spans[0].data|
      requires Concat(placements) == spans[0].data[..n]
      modifies this`settled, this`settledLen, this`spans
      ensures State() == Spilled(old(State()), placements, n)
      ensures Ordered(State()) && Content(State()) == old(Content(State()))
      ensures old(WellFormed(spans)) ==> WellFormed(spans) && Above()
      ensures Whole(State())
    {
      ghost var before := State();
      SpillKeepsContent(before, placements, n);
      settled := settled + placements;
      settledLen := settledLen + n;
      spans := [Span(spans[0].start + n, spans[0].data[n..])] + spans[1..];
      if WellFormed(before.spans) {
        SpillAbove(before, placements, n);
      }
    }

    /** spillCache: settles prefixes while they are over the threshold; the file stays the same even
        when storing the chunks fails. */
    method Spill(store: Store) returns (ok: bool)
      requires Ordered(State()) && Tiling(store)
      modifies this`settled, this`settledLen, this`spans
      ensures Ordered(State()) && Content(State()) == old(Content(State()))
      ensures old(WellFormed(spans)) ==> WellFormed(spans)
      ensures old(WellFormed(spans) && Above()) ==> Above()
      ensures old(Whole(State())) ==> Whole(State())
      ensures ok ==> spans != [] && spans[0].start == settledLen ==> |spans[0].data| <= SPILL_THRESHOLD
    {
      while true
        invariant Ordered(State()) && Content(State()) == old(Content(State()))
        invariant old(WellFormed(spans)) ==> WellFormed(spans)
        invariant old(WellFormed(spans) && Above()) ==> Above()
        invariant old(Whole(State())) ==> Whole(State())
        decreases if spans == [] then 0 else |spans[0].data|
      {
        var data := SpillPrefix();
        if data.None? {
          return true;
        }
        var placements := store(settledLen, data.value);
        if placements.None? {
          return false;
        }
        CommitSpill(placements.value, |data.value|);
      }
    }
  }

  /* ---- what a write means ---- */

  lemma MergedMeaning(c: Cache, off: nat, data: Bytes, after: seq<Span>)
    requires data != [] && IsSort(Rebuilt(c.spans, off, data), after)
    ensures Keeps(c.spans, off, data) ==> Overlays(c.spans, off, data, after)
    ensures Loses(c.spans, off, data) ==> Misses(c.spans, off, data, after)
  {
    hide Rebuilt, Keeps, Loses, Overlays, Top;
    if Keeps(c.spans, off, data) {
      KeepsOverlays(c.spans, off, data, after);
    }
    if Loses(c.spans, off, data) {
      var i := LosesByte(c.spans, off, data, after);
    }
  }

  /** Outside the write the spans show another byte than before. */
  ghost predicate Misses(before: seq<Span>, off: nat, data: Bytes, after: seq<Span>) {
    exists i: nat :: !(off <= i < off + |data|) && Top(before, i).Some? && Top(after, i).Some? && Top(after, i) != Top(before, i)
  }

  lemma WriteMeaning(c: Cache, off: nat, data: Bytes, after: seq<Span>)
    requires Sound(c) && data != [] && Filled(after) && Reaches(c.spans, off, data, after)
    ensures var d := Rewritten(c, off, data, after);
            && Sound(d) && (Overlays(c.spans, off, data, after) ==> (Content(d) == FlatWrite(Content(c), off, data) <==> Quiet(c, off)))
            && (Misses(c.spans, off, data, after) ==> Content(d) != FlatWrite(Content(c), off, data))
            && (From(c.spans, c.settledLen) ==> (From(after, c.settledLen) <==> off >= c.settledLen))
  {
    hide Overlays;
    var d := Rewritten(c, off, data, after);
    assert Below(c.spans, d.length);
    assert Below(after, d.length);
    if Overlays(c.spans, off, data, after) {
      OverlayIsFlatWrite(c, off, data, after);
    }
    if Misses(c.spans, off, data, after) {
      var i: nat :| !(off <= i < off + |data|) && Top(c.spans, i).Some? && Top(after, i).Some? && Top(after, i) != Top(c.spans, i);
      var k := TopWitness(c.spans, i);
      OtherByteIsNotFlatWrite(c, off, data, after, i);
    }
  }

  /** A write that does not take the fast path gives the flat file for every order the sort may put equal starts in exactly
      when it is faithful and brings nothing back. */
  lemma FaithfulExactly(c: Cache, off: nat, data: Bytes)
    requires Ordered(c) && data != [] && !HasFast(c.spans, off, off + |data|)
    ensures Faithful(c.spans, off, data) && Quiet(c, off) <==>
              forall after :: IsSort(Rebuilt(c.spans, off, data), after) ==>
                                var d := Rewritten(c, off, data, after); Sound(d) && Content(d) == FlatWrite(Content(c), off, data)
  {
    hide Overlays, Reaches, Content, Top;
    var list := Rebuilt(c.spans, off, data);
    forall after | IsSort(list, after) ensures Sound(Rewritten(c, off, data, after))
      ensures Overlays(c.spans, off, data, after) ==>
                (Content(Rewritten(c, off, data, after)) == FlatWrite(Content(c), off, data) <==> Quiet(c, off))
    {
      RebuiltReaches(c.spans, off, data, after);
      WriteMeaning(c, off, data, after);
    }
    if Keeps(c.spans, off, data) {
      KeepsExactly(c.spans, off, data);
      var after := Sortable(list);
      assert Overlays(c.spans, off, data, after);
    } else {
      var i: nat, s: Span :| !(off <= i < off + |data|) && Uppermost(list, s, i) && Top(c.spans, i) != Some(ByteOf(s, i));
      var after := SortShowing(list, s, i);
      StillCovered(c.spans, off, data, after, i);
      assert Misses(c.spans, off, data, after);
      RebuiltReaches(c.spans, off, data, after);
      WriteMeaning(c, off, data, after);
    }
  }

  /* ---- whole sessions ---- */

  datatype Op = Write(off: nat, data: Bytes) | SetSize(size: nat)

  function FlatApply(f: Bytes, op: Op): Bytes {
    match op
    case Write(off, data) => FlatWrite(f, off, data)
    case SetSize(size) => Resize(f, size)
  }

  function FlatRun(f: Bytes, ops: seq<Op>): Bytes {
    if ops == [] then f else FlatApply(FlatRun(f, ops[..|ops| - 1]), ops[|ops| - 1])
  }

  /** The call leaves the flat file. */
  ghost predicate FaithfulOp(c: Cache, op: Op)
    requires Sound(c)
  {
    match op
    case Write(off, data) => Faithful(c.spans, off, data) && (data == [] || Quiet(c, off))
    case SetSize(size) => Quiet(c, size)
  }

  /** A write that puts a dirty byte below the settled prefix. */
  predicate LowWrite(c: Cache, op: Op) {
    op.Write? && op.data != [] && op.off < c.settledLen
  }

  /** One call of a handle; a write is followed by a spill that may fail. */
  method Apply(c: WriteCache, op: Op, store: Store, stored: bool) returns (ok: bool)
    requires Ordered(c.State()) && Tiling(store)
    modifies c
    ensures Ordered(c.State())
    ensures old(FaithfulOp(c.State(), op)) ==> Content(c.State()) == FlatApply(old(Content(c.State())), op)
    ensures old(WellFormed(c.spans) && c.Above() && !LowWrite(c.State(), op)) ==> WellFormed(c.spans) && c.Above()
    ensures ok && old(Whole(c.State())) ==> Whole(c.State())
    ensures ok <==> op.Write? || stored || op.size >= old(c.settledLen) || old(OnBoundary(c.settled, op.size))
  {
    match op
    case Write(off, data) =>
      c.WriteAt(off, data);
      var _ := c.Spill(store);
      return true;
    case SetSize(size) =>
      NoCollision(c.State());
      ok := c.Truncate(size, stored);
  }

  /** What a session tells of its calls: the caches before and after each, and whether it was answered with success. The
      file is the flat array that saw the same calls, failed truncations included, for as long as every call was faithful.
      Calls can only be unfaithful once a write went below the settled prefix or a truncation failed. */
  datatype Story = Story(ops: seq<Op>, states: seq<Cache>, oks: seq<bool>) {
    ghost predicate AllFaithful(k: nat)
      requires k <= |states| && k <= |ops|
    {
      forall j :: 0 <= j < k ==> Sound(states[j]) && FaithfulOp(states[j], ops[j])
    }

    predicate NoneLow(k: nat)
      requires k <= |states| && k <= |ops|
    {
      forall j :: 0 <= j < k ==> !LowWrite(states[j], ops[j])
    }

    predicate NoneFailed(k: nat)
      requires k <= |oks|
    {
      forall j :: 0 <= j < k ==> oks[j]
    }

    ghost predicate Follows(f: Bytes, k: nat)
      requires k < |states| && k <= |ops| && k <= |oks|
    {
      && Ordered(states[k])
      && (AllFaithful(k) ==> Content(states[k]) == FlatRun(f, ops[..k]))
      && (NoneLow(k) ==> WellFormed(states[k].spans) && From(states[k].spans, states[k].settledLen))
      && (NoneFailed(k) ==> Whole(states[k]))
      && (NoneLow(k) && NoneFailed(k) ==> AllFaithful(k))
    }

    ghost predicate FollowsAll(f: Bytes)
      requires |states| == |oks| + 1 && |oks| <= |ops|
    {
      forall k :: 0 <= k <= |oks| ==> Follows(f, k)
    }

    function More(next: Cache, ok: bool): Story {
      Story(ops, states + [next], oks + [ok])
    }
  }

  /** A handle's session over any sequence of calls, with any of them failing. */
  method Session(c: WriteCache, ops: seq<Op>, store: nat -> Store, stored: nat -> bool) returns (oks: seq<bool>, ghost s: Story)
    requires Valid(c.State()) && c.Above() && Whole(c.State()) && forall i :: Tiling(store(i))
    modifies c
    ensures |oks| == |ops| && s.ops == ops && s.oks == oks && |s.states| == |ops| + 1
    ensures s.states[0] == old(c.State()) && s.states[|ops|] == c.State() && s.FollowsAll(old(Content(c.State())))
    ensures forall i :: 0 <= i < |ops| ==>
                          (oks[i] <==> ops[i].Write? || stored(i) || ops[i].size >= s.states[i].settledLen || OnBoundary(s.states[i].settled, ops[i].size))
  {
    hide Faithful, Content, WellFormed, From, OnBoundary;
    ghost var f := Content(c.State());
    oks, s := [], Story(ops, [c.State()], []);
    WellFormedTidy(c.spans, c.settledLen);
    assert ops[..0] == [];
    while |oks| < |ops|
      invariant |oks| <= |ops| && s.ops == ops && s.oks == oks && |s.states| == |oks| + 1
      invariant s.states[0] == old(c.State()) && s.states[|oks|] == c.State() && s.FollowsAll(f)
      invariant forall i :: 0 <= i < |oks| ==>
                              (oks[i] <==> ops[i].Write? || stored(i) || ops[i].size >= s.states[i].settledLen || OnBoundary(s.states[i].settled, ops[i].size))
    {
      var i := |oks|;
      assert s.Follows(f, i);
      var ok := Apply(c, ops[i], store(i), stored(i));
      FollowsNext(s, f, c.State(), ok);
      oks, s := oks + [ok], s.More(c.State(), ok);
    }
  }

  lemma WellFormedTidy(spans: seq<Span>, settled: nat)
    requires WellFormed(spans)
    ensures Tidy(spans, settled)
  {
    WellFormedByStart(spans);
  }

  /** What one call promises. */
  ghost predicate Goes(c: Cache, op: Op, next: Cache, ok: bool) {
    && Ordered(c) && Ordered(next) && (FaithfulOp(c, op) ==> Content(next) == FlatApply(Content(c), op))
    && (WellFormed(c.spans) && From(c.spans, c.settledLen) && !LowWrite(c, op) ==> WellFormed(next.spans) && From(next.spans, next.settledLen))
    && (ok && Whole(c) ==> Whole(next))
  }

  lemma FollowsNext(s: Story, f: Bytes, next: Cache, ok: bool)
    requires |s.states| == |s.oks| + 1 <= |s.ops| && s.FollowsAll(f) && Goes(s.states[|s.oks|], s.ops[|s.oks|], next, ok)
    ensures s.More(next, ok).FollowsAll(f)
  {
    hide Goes, Story.Follows;
    var k, more := |s.oks|, s.More(next, ok);
    forall j | 0 <= j <= k ensures more.Follows(f, j) {
      FollowsStill(s, f, next, ok, j);
    }
    FollowsLast(s, f, next, ok);
  }

  lemma WholeFaithful(c: Cache, op: Op)
    requires Sound(c) && WellFormed(c.spans) && Whole(c)
    ensures FaithfulOp(c, op)
  {
    hide Faithful;
    if op.Write? {
      WellFormedFaithful(c.spans, op.off, op.data);
    }
  }

  lemma FollowsLast(s: Story, f: Bytes, next: Cache, ok: bool)
    requires |s.states| == |s.oks| + 1 <= |s.ops| && s.Follows(f, |s.oks|) && Goes(s.states[|s.oks|], s.ops[|s.oks|], next, ok)
    ensures s.More(next, ok).Follows(f, |s.oks| + 1)
  {
    hide FaithfulOp, LowWrite, Content, WellFormed, From, Whole, Tidy, Concat;
    var k, more := |s.oks|, s.More(next, ok);
    if WellFormed(s.states[k].spans) && Whole(s.states[k]) {
      WholeFaithful(s.states[k], s.ops[k]);
    }
    assert s.ops[..k + 1][..k] == s.ops[..k];
    assert forall i :: 0 <= i <= k ==> more.states[i] == s.states[i];
    assert forall i :: 0 <= i < k ==> more.oks[i] == s.oks[i];
    assert more.AllFaithful(k + 1) <==> s.AllFaithful(k) && FaithfulOp(more.states[k], s.ops[k]);
    assert more.NoneLow(k + 1) ==> s.NoneLow(k) && !LowWrite(more.states[k], s.ops[k]);
    assert more.NoneFailed(k + 1) ==> s.NoneFailed(k) && more.oks[k];
  }

  lemma FollowsStill(s: Story, f: Bytes, next: Cache, ok: bool, k: nat)
    requires |s.states| == |s.oks| + 1 <= |s.ops| && k <= |s.oks| && s.Follows(f, k)
    ensures s.More(next, ok).Follows(f, k)
  {
    hide FaithfulOp, LowWrite;
    var more := s.More(next, ok);
    assert forall i :: 0 <= i < |s.states| ==> more.states[i] == s.states[i];
    assert forall i :: 0 <= i < |s.oks| ==> more.oks[i] == s.oks[i];
    assert more.AllFaithful(k) <==> s.AllFaithful(k);
    assert more.NoneLow(k) <==> s.NoneLow(k);
    assert more.NoneFailed(k) <==> s.NoneFailed(k);
  }

  lemma NoCollision(c: Cache)
    requires Sound(c)
    ensures From(c.spans, c.settledLen) ==> forall n: nat :: !Collides(c, n)
  {
  }
}
