/** finalizeCache (server/api.go): the new version's chunk list, re-chunking only modified windows. */
module Splice {
  import opened Bytes
  import opened Results
  import opened Overlay
  import opened Spans
  import opened WriteCacheModel

  /** A base chunk at its logical offset. */
  datatype Placed = Placed(start: nat, chunk: Chunk) {
    function End(): nat { start + |chunk.data| }
  }

  predicate NonEmpty(chunks: seq<Chunk>) {
    forall k :: 0 <= k < |chunks| ==> chunks[k].data != []
  }

  function At(base: seq<Chunk>, k: nat): Placed
    requires k < |base|
  {
    Placed(|Concat(base[..k])|, base[k])
  }

  predicate SpanOverlaps(spans: seq<Span>, a: nat, b: nat) {
    exists k :: 0 <= k < |spans| && spans[k].start < b && spans[k].End() > a
  }

  /** Wholly inside the visible base and touched by no dirty span. */
  predicate IsClean(c: Cache, p: Placed) {
    p.start >= c.settledLen && p.End() <= c.baseLen && !SpanOverlaps(c.spans, p.start, p.End())
  }

  /** `p` stands in `result` as the very same chunk at the very same offset. */
  predicate Reused(result: seq<Chunk>, p: Placed) {
    exists k :: 0 <= k < |result| && result[k] == p.chunk && |Concat(result[..k])| == p.start
  }

  lemma PlacedBytes(base: seq<Chunk>, k: nat)
    requires k < |base|
    ensures At(base, k).End() == |Concat(base[..k + 1])| <= |Concat(base)|
    ensures Concat(base)[At(base, k).start..At(base, k).End()] == base[k].data
  {
    ConcatStep(base, k);
    ConcatPrefix(base, k + 1);
    var whole, upTo := Concat(base), Concat(base[..k + 1]);
    assert whole[..|upTo|] == upTo;
    assert whole[At(base, k).start..|upTo|] == whole[..|upTo|][At(base, k).start..];
  }

  lemma PlacedOrder(base: seq<Chunk>, j: nat, k: nat)
    requires j < k < |base|
    ensures At(base, j).End() <= At(base, k).start
  {
    PlacedBytes(base, j);
    ConcatGrows(base, j + 1, k);
  }

  /** A clean chunk holds exactly the current bytes of its range. */
  lemma CleanContent(c: Cache, k: nat)
    requires Sound(c) && k < |c.base| && IsClean(c, At(c.base, k))
    ensures At(c.base, k).End() <= c.length
    ensures Content(c)[At(c.base, k).start..At(c.base, k).End()] == c.base[k].data
  {
    var p := At(c.base, k);
    PlacedBytes(c.base, k);
    forall i | p.start <= i < p.End() ensures Content(c)[i] == Concat(c.base)[i] {
      forall m | 0 <= m < |c.spans| ensures !c.spans[m].Covers(i) {
      }
      TopMiss(c.spans, i);
    }
    assert Content(c)[p.start..p.End()] == Concat(c.base)[p.start..p.End()];
  }

  predicate IsBase(base: seq<Chunk>, p: Placed) {
    exists k :: 0 <= k < |base| && p == At(base, k)
  }

  /** Base chunks in order, among them every clean one. */
  ghost predicate Listed(c: Cache, list: seq<Placed>) {
    && (forall i :: 0 <= i < |list| ==> IsBase(c.base, list[i]))
    && (forall i, j :: 0 <= i < j < |list| ==> list[i].End() <= list[j].start)
    && (forall k :: 0 <= k < |c.base| && IsClean(c, At(c.base, k)) ==> At(c.base, k) in list)
  }

  /** The chunks that reach past the settled prefix and start inside the visible base. */
  method BaseChunks(c: Cache) returns (list: seq<Placed>)
    requires Sound(c) && NonEmpty(c.base)
    ensures Listed(c, list)
  {
    list := [];
    var cur := 0;
    for k := 0 to |c.base|
      invariant cur == |Concat(c.base[..k])|
      invariant forall i :: 0 <= i < |list| ==> list[i].End() <= cur && IsBase(c.base, list[i])
      invariant forall i, j :: 0 <= i < j < |list| ==> list[i].End() <= list[j].start
      invariant forall m :: 0 <= m < k && IsClean(c, At(c.base, m)) ==> At(c.base, m) in list
    {
      ConcatStep(c.base, k);
      var end := cur + |c.base[k].data|;
      assert At(c.base, k) == Placed(cur, c.base[k]) && IsBase(c.base, Placed(cur, c.base[k]));
      if end > c.settledLen && cur < c.baseLen {
        list := list + [Placed(cur, c.base[k])];
      }
      cur := end;
    }
  }

  /** The clean chunk starting exactly at `pos`, if there is one. */
  method FindReusable(c: Cache, list: seq<Placed>, pos: nat) returns (r: Option<Placed>)
    ensures r.Some? ==> r.value in list && r.value.start == pos && IsClean(c, r.value)
    ensures r.None? ==> forall p :: p in list && p.start == pos ==> !IsClean(c, p)
  {
    for i := 0 to |list|
      invariant forall j :: 0 <= j < i && list[j].start == pos ==> !IsClean(c, list[j])
    {
      if list[i].start == pos && IsClean(c, list[i]) {
        return Some(list[i]);
      }
    }
    return None;
  }

  /** Where the dirty window starting at `pos` ends: at the next clean chunk, or at the end of the file. */
  method WindowEnd(c: Cache, list: seq<Placed>, pos: nat) returns (end: nat)
    requires Sound(c) && Listed(c, list) && NonEmpty(c.base) && pos < c.length
    ensures pos < end <= c.length
    ensures forall p :: p in list && pos < p.start < end ==> !IsClean(c, p)
  {
    for i := 0 to |list|
      invariant forall j :: 0 <= j < i && list[j].start > pos ==> !IsClean(c, list[j])
    {
      if list[i].start > pos && IsClean(c, list[i]) {
        assert forall j :: i < j < |list| ==> list[i].End() <= list[j].start;
        return list[i].start;
      }
    }
    return c.length;
  }

  /** Storing chunks never fails. */
  ghost predicate Storing(store: Store) {
    forall off: nat, data: Bytes :: store(off, data).Some?
  }

  /** Stores the window [pos, end) in batches no larger than the spill threshold. */
  method StoreWindow(cache: WriteCache, store: Store, stored: bool, pos: nat, end: nat) returns (r: Result<seq<Chunk>>)
    requires Sound(cache.State()) && Tiling(store) && pos <= end <= cache.length
    ensures r.Ok? ==> Concat(r.value) == Content(cache.State())[pos..end]
    ensures stored && Storing(store) ==> r.Ok?
  {
    ghost var whole := Content(cache.State());
    var at := pos;
    var out: seq<Chunk> := [];
    while at < end
      invariant pos <= at <= end && Concat(out) == [] + whole[pos..at]
    {
      var stop := if end - at > SPILL_THRESHOLD then at + SPILL_THRESHOLD else end;
      var data := cache.ReadAt(at, stop - at, stored);
      if data.Err? {
        return Err;
      }
      var placements := store(at, data.value);
      if placements.None? {
        return Err;
      }
      assert Tiles(placements.value, data.value);
      AdvanceBytes([], whole, pos, at, stop, out, placements.value);
      out := out + placements.value;
      at := stop;
    }
    return Ok(out);
  }

  lemma ReusedGrows(result: seq<Chunk>, more: seq<Chunk>, p: Placed)
    requires Reused(result, p)
    ensures Reused(result + more, p)
  {
    var k :| 0 <= k < |result| && result[k] == p.chunk && |Concat(result[..k])| == p.start;
    assert (result + more)[..k] == result[..k] && (result + more)[k] == result[k];
  }

  /** Every clean chunk below `pos` has been reused. */
  ghost predicate ReusedBelow(c: Cache, list: seq<Placed>, pos: nat, result: seq<Chunk>) {
    forall p :: p in list && IsClean(c, p) && p.start < pos ==> Reused(result, p)
  }

  lemma ReuseStep(c: Cache, list: seq<Placed>, pos: nat, result: seq<Chunk>, p: Placed)
    requires Sound(c) && NonEmpty(c.base) && Listed(c, list) && p in list && p.start == pos && IsClean(c, p) && |Concat(result)| == pos
    ensures pos < p.End() <= c.length && Concat([p.chunk]) == Content(c)[pos..p.End()]
    ensures forall q :: q in list && pos <= q.start < p.End() ==> q == p
    ensures Reused(result + [p.chunk], p)
  {
    var k :| 0 <= k < |c.base| && p == At(c.base, k);
    CleanContent(c, k);
    assert (result + [p.chunk])[..|result|] == result && (result + [p.chunk])[|result|] == p.chunk;
    forall q | q in list && pos <= q.start < p.End() ensures q == p {
      var m :| 0 <= m < |c.base| && q == At(c.base, m);
      if m < k {
        PlacedOrder(c.base, m, k);
      } else if k < m {
        PlacedOrder(c.base, k, m);
      }
    }
  }

  lemma Join(b: Bytes, x: nat, y: nat, z: nat)
    requires x <= y <= z <= |b|
    ensures b[x..z] == b[x..y] + b[y..z]
  {
  }

  lemma AdvanceBytes(head: Bytes, whole: Bytes, from: nat, pos: nat, next: nat, result: seq<Chunk>, more: seq<Chunk>)
    requires from <= pos <= next <= |whole|
    requires Concat(result) == head + whole[from..pos] && Concat(more) == whole[pos..next]
    ensures Concat(result + more) == head + whole[from..next]
  {
    hide Concat;
    ConcatAppend(result, more);
    Join(whole, from, pos, next);
  }

  lemma AdvanceReuse(c: Cache, list: seq<Placed>, pos: nat, next: nat, result: seq<Chunk>, more: seq<Chunk>)
    requires ReusedBelow(c, list, pos, result)
    requires forall q :: q in list && IsClean(c, q) && pos <= q.start < next ==> Reused(result + more, q)
    ensures ReusedBelow(c, list, next, result + more)
  {
    forall q | q in list && IsClean(c, q) && q.start < next ensures Reused(result + more, q) {
      if q.start < pos {
        ReusedGrows(result, more, q);
      }
    }
  }

  /** The file above the settled prefix; nothing where a failed truncation left it shorter than that. */
  function Tail(c: Cache): Bytes
    requires Sound(c)
  {
    if Whole(c) then Content(c)[c.settledLen..] else []
  }

  /** finalizeCache: the settled chunks verbatim, then exactly the current bytes above them, with
      every untouched base chunk reused in place. */
  method FinalizeCache(cache: WriteCache, store: Store, stored: bool) returns (r: Result<seq<Chunk>>)
    requires Sound(cache.State()) && NonEmpty(cache.base) && Tiling(store)
    ensures r.Ok? ==> cache.settled <= r.value
    ensures r.Ok? ==> Concat(r.value) == Concat(cache.settled) + Tail(cache.State())
    ensures r.Ok? ==> forall k :: 0 <= k < |cache.base| && IsClean(cache.State(), At(cache.base, k)) ==> Reused(r.value, At(cache.base, k))
    ensures (stored && Storing(store)) || !Whole(cache.State()) ==> r.Ok?
  {
    var c := cache.State();
    var list := BaseChunks(c);
    var result := c.settled;
    var pos := c.settledLen;
    while pos < c.length
      invariant c.settledLen <= pos && (Whole(c) ==> pos <= c.length) && c.settled <= result
      invariant if Whole(c) then Concat(result) == Concat(c.settled) + Content(c)[c.settledLen..pos] else result == c.settled
      invariant ReusedBelow(c, list, pos, result)
      decreases c.length - pos
    {
      var more: seq<Chunk>, next: nat;
      var found := FindReusable(c, list, pos);
      if found.Some? {
        more, next := [found.value.chunk], found.value.End();
        ReuseStep(c, list, pos, result, found.value);
      } else {
        next := WindowEnd(c, list, pos);
        var stored' := StoreWindow(cache, store, stored, pos, next);
        if stored'.Err? {
          return Err;
        }
        more := stored'.value;
      }
      AdvanceBytes(Concat(c.settled), Content(c), c.settledLen, pos, next, result, more);
      AdvanceReuse(c, list, pos, next, result, more);
      result, pos := result + more, next;
    }
    return Ok(result);
  }

  /** Every dirty byte below the settled prefix repeats the settled byte it covers. */
  predicate DirtyAgrees(c: Cache)
    requires Sound(c)
  {
    forall i :: 0 <= i < c.settledLen && Top(c.spans, i).Some? ==> Top(c.spans, i).value == Concat(c.settled)[i]
  }

  /** finalizeCache ignores dirty bytes below the settled prefix and the end of a file that a failed truncation left
      shorter, so its list is the file exactly when those bytes say nothing new and no such truncation is pending. */
  lemma SpliceIsContent(c: Cache, result: seq<Chunk>)
    requires Sound(c) && Concat(result) == Concat(c.settled) + Tail(c)
    ensures Concat(result) == Content(c) <==> Whole(c) && DirtyAgrees(c)
    ensures Whole(c) && From(c.spans, c.settledLen) ==> Concat(result) == Content(c)
  {
    var whole, low := Content(c), Concat(c.settled);
    if Whole(c) {
      assert whole == whole[..c.settledLen] + whole[c.settledLen..];
      if DirtyAgrees(c) {
        assert forall i :: 0 <= i < c.settledLen ==> whole[i] == low[i];
        assert whole[..c.settledLen] == low;
      } else {
        var i :| 0 <= i < c.settledLen && Top(c.spans, i).Some? && Top(c.spans, i).value != low[i];
        assert whole[i] != low[i];
        assert Concat(result)[i] == low[i];
      }
    }
    if From(c.spans, c.settledLen) {
      forall i | 0 <= i < c.settledLen ensures Top(c.spans, i).None? {
        TopMiss(c.spans, i);
      }
    }
  }

  /** A truncation into the settled prefix that fails: reads show the shortened file, the version published then is the
      settled prefix at its old length. */
  method TruncationFailedThenPublished(cache: WriteCache, n: nat, store: Store, stored: bool) returns (r: Result<seq<Chunk>>)
    requires Ordered(cache.State()) && Whole(cache.State()) && NonEmpty(cache.base) && Tiling(store)
    requires n < cache.settledLen && !OnBoundary(cache.settled, n)
    modifies cache
    ensures Ordered(cache.State()) && Content(cache.State()) == Resize(old(Content(cache.State())), n)
    ensures r.Ok? && Concat(r.value) == old(Concat(cache.settled)) && |Concat(r.value)| > n
  {
    var _ := cache.Truncate(n, false);
    r := FinalizeCache(cache, store, stored);
  }

  /** A new byte written below the settled prefix never reaches the published version. */
  method WriteBelowSettledIsLost(cache: WriteCache, off: nat, b: Byte, store: Store, stored: bool) returns (r: Result<seq<Chunk>>)
    requires Valid(cache.State()) && Whole(cache.State()) && NonEmpty(cache.base) && Tiling(store)
    requires off < cache.settledLen && Concat(cache.settled)[off] != b
    modifies cache
    ensures Sound(cache.State()) && Content(cache.State()) == FlatWrite(old(Content(cache.State())), off, [b])
    ensures r.Ok? ==> off < |Concat(r.value)| && Concat(r.value)[off] == old(Concat(cache.settled)[off]) != Content(cache.State())[off]
    ensures stored && Storing(store) ==> r.Ok?
  {
    WellFormedTidy(cache.spans, cache.settledLen);
    cache.WriteAt(off, [b]);
    r := FinalizeCache(cache, store, stored);
  }

  /* ---- runs that lose bytes ---- */

  /** Bytes that are dirty without a gap lie in one span. */
  lemma Unbroken(spans: seq<Span>, from: nat, to: nat) returns (k: nat)
    requires WellFormed(spans) && from < to && forall i :: from <= i < to ==> Top(spans, i).Some?
    ensures k < |spans| && spans[k].start <= from && to <= spans[k].End()
  {
    k := TopWitness(spans, from);
    var i := from;
    while i < to - 1
      invariant from <= i < to && spans[k].Covers(i)
    {
      var j := TopWitness(spans, i + 1);
      assert j < k ==> Apart(spans, j, k);
      assert k < j ==> Apart(spans, k, j);
      i := i + 1;
    }
  }

  /** A store that cuts off a first chunk of eight bytes. */
  function CutEight(off: nat, data: Bytes): Option<seq<Chunk>> {
    if data == [] then Some([])
    else if |data| <= 8 then Some([Chunk(0, data)])
    else Some([Chunk(0, data[..8]), Chunk(1, data[8..])])
  }

  lemma CutEightTiles()
    ensures Tiling(CutEight) && Storing(CutEight)
  {
    forall off: nat, data: Bytes ensures Tiles(CutEight(off, data).value, data) {
      var chunks := CutEight(off, data).value;
      if |data| > 8 {
        assert chunks[1..] == [Chunk(1, data[8..])] && chunks[1..][1..] == [];
        assert Concat(chunks[1..]) == data[8..] + Concat([]) == data[8..];
        assert data == data[..8] + data[8..];
      } else if data != [] {
        assert chunks[1..] == [];
        assert Concat(chunks) == data + Concat([]) == data;
      }
    }
  }

  predicate Ones(data: Bytes) {
    forall i :: 0 <= i < |data| ==> data[i] == 1
  }

  /** A file written in one piece, just over the spill threshold, and spilled. */
  method SpilledFile() returns (c: WriteCache)
    ensures fresh(c) && Valid(c.State()) && Whole(c.State()) && c.Above() && c.base == [] && c.length == SPILL_THRESHOLD + 1
    ensures |c.settled| == 2 && |c.settled[0].data| == 8 && c.settledLen > 16 && Ones(Concat(c.settled)) && Ones(Content(c.State()))
  {
    var data: Bytes := seq(SPILL_THRESHOLD + 1, _ => 1);
    c := new WriteCache([]);
    WellFormedTidy(c.spans, c.settledLen);
    c.WriteAt(0, data);
    ghost var before := c.State();
    assert Content(before) == data;
    forall i | 0 <= i < |data| ensures Top(c.spans, i) == Some(1) {
      assert Content(before)[i] == 1;
    }
    ghost var k := Unbroken(c.spans, 0, |data|);
    assert k > 0 ==> Apart(c.spans, 0, k);
    assert c.spans[0] == Span(0, c.spans[0].data) && |c.spans[0].data| == |data|;
    forall i | 0 <= i < |data| ensures c.spans[0].data[i] == 1 {
      TopHit(c.spans, 0, i);
    }
    var prefix := c.SpillPrefix();
    CutEightTiles();
    var placements := CutEight(c.settledLen, prefix.value);
    assert Tiles(placements.value, prefix.value);
    assert [] + placements.value == placements.value;
    c.CommitSpill(placements.value, |prefix.value|);
  }

  /** That file with bytes 7 to 9 written over: two of them below the second settled chunk's start, two above. */
  method OverwrittenFile() returns (c: WriteCache)
    ensures fresh(c) && Valid(c.State()) && Whole(c.State()) && c.base == [] && c.length == SPILL_THRESHOLD + 1
    ensures |c.settled| == 2 && |c.settled[0].data| == 8 && c.settledLen > 16 && Ones(Concat(c.settled))
    ensures forall i :: 7 <= i < 10 ==> Content(c.State())[i] == 2 && Top(c.spans, i) == Some(2)
  {
    c := SpilledFile();
    WellFormedTidy(c.spans, c.settledLen);
    c.WriteAt(7, [2, 2, 2]);
    forall i | 7 <= i < 10 ensures Content(c.State())[i] == 2 && Top(c.spans, i) == Some(2) {
      assert Content(c.State())[i] == [2, 2, 2][i - 7];
      assert Under(c.State(), i) == 1;
    }
  }

  /** A run whose published version is not the file. */
  method PublishedWithoutTheWrite() returns (c: WriteCache, r: Result<seq<Chunk>>)
    ensures Sound(c.State()) && !DirtyAgrees(c.State()) && r.Ok? && Concat(r.value) != Content(c.State())
  {
    c := OverwrittenFile();
    CutEightTiles();
    r := FinalizeCache(c, CutEight, true);
    assert Top(c.spans, 7) == Some(2) && Concat(c.settled)[7] == 1;
    SpliceIsContent(c.State(), r.value);
  }

  /** A run in which a truncation fails and the next write, behind the end of the file, brings back bytes it cut off. */
  method CutOffThenBack() returns (c: WriteCache, ghost before: Cache)
    ensures Sound(before) && !Whole(before) && before.length == 16 && Ones(Content(before))
    ensures Sound(c.State()) && Content(c.State()) != FlatWrite(Content(before), 20, [3])
  {
    hide Concat, Top, HasFast, Loses, Keeps;
    c := SpilledFile();
    EightBoundaries(c.settled);
    WellFormedTidy(c.spans, c.settledLen);
    ghost var start := c.State();
    var _ := c.Truncate(16, false);
    before := c.State();
    assert Content(before) == Resize(Content(start), 16);
    assert Concat(c.settled)[16] == 1;
    WellFormedFaithful(c.spans, 20, [3]);
    c.WriteAt(20, [3]);
  }

  /** A run in which a truncation collides and the next write loses bytes. */
  method TruncatedThenWritten() returns (c: WriteCache, ghost collided: Cache, ghost before: Cache)
    ensures Valid(collided) && Collides(collided, 16) && Sound(before) && Content(before) == Resize(Content(collided), 16)
    ensures Sound(c.State()) && Content(c.State()) != FlatWrite(Content(before), 20, [3])
  {
    hide Concat, Content, Top, Truncated, Loses, HasFast, Tidy, WellFormed, Collides;
    c := OverwrittenFile();
    collided := c.State();
    WellFormedTidy(c.spans, c.settledLen);
    var _ := c.Truncate(16, true);
    before := c.State();
    WriteAtTwentyLoses(collided, c.settled);
    c.WriteAt(20, [3]);
  }

  lemma WriteAtTwentyLoses(c: Cache, keep: seq<Chunk>)
    requires Valid(c) && Cuts(c, 16, keep)
    requires |c.settled| == 2 && |c.settled[0].data| == 8 && c.settledLen > 16 && Ones(Concat(c.settled))
    requires forall i :: 7 <= i < 10 ==> Top(c.spans, i) == Some(2)
    ensures Collides(c, 16)
    ensures var spans := Truncated(c, 16, keep).spans; !HasFast(spans, 20, 21) && Loses(spans, 20, [3])
  {
    hide Concat, Loses, HasFast, Top, Truncated;
    var k := Unbroken(c.spans, 7, 10);
    EightBoundaries(c.settled);
    EightKept(c, keep);
    TopHit(c.spans, k, 8);
    assert Uncovers(c, 16, 8, c.spans[k], 8, 20, 21);
    WriteAfterCollision(c, 16, keep, 20, [3]);
  }

  lemma EightBoundaries(chunks: seq<Chunk>)
    requires |chunks| == 2 && |chunks[0].data| == 8 && |Concat(chunks)| > 16
    ensures !OnBoundary(chunks, 16) && |Concat(chunks[..0])| == 0 && |Concat(chunks[..1])| == 8 && chunks[..2] == chunks
  {
    assert chunks[..1][1..] == [];
    assert chunks[..2] == chunks;
    forall j | 0 <= j <= |chunks| ensures |Concat(chunks[..j])| != 16 {
      assert j == 0 || j == 1 || j == 2;
    }
  }

  lemma EightKept(c: Cache, keep: seq<Chunk>)
    requires Cuts(c, 16, keep) && |c.settled| == 2 && |c.settled[0].data| == 8 && |Concat(c.settled)| == c.settledLen > 16
    ensures |Concat(keep)| == 8
  {
    EightBoundaries(c.settled);
    assert keep == c.settled[..|keep|];
    assert |keep| == 0 || |keep| == 1;
  }
}
