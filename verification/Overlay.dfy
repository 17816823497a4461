/**
 What a write handle's cache means (server/writecache.go): dirty spans over a settled chunk
 prefix over the clipped base version over zero holes, and the flat byte array it stands for.
 */
module Overlay {
  import opened Bytes
  import opened Results

  /** A chunk placement together with the bytes its content hash resolves to. */
  datatype Chunk = Chunk(hash: nat, data: Bytes)

  /** A run of dirty bytes at a logical offset. */
  datatype Span = Span(start: nat, data: Bytes) {
    function End(): nat { start + |data| }
    predicate Covers(i: nat) { start <= i < End() }
  }

  datatype Cache = Cache(base: seq<Chunk>, baseLen: nat, settled: seq<Chunk>, settledLen: nat, length: nat, spans: seq<Span>)

  function Concat(chunks: seq<Chunk>): Bytes {
    if chunks == [] then [] else chunks[0].data + Concat(chunks[1..])
  }

  lemma {:induction false} ConcatAppend(a: seq<Chunk>, b: seq<Chunk>)
    ensures Concat(a + b) == Concat(a) + Concat(b)
  {
    if a == [] {
      assert a + b == b;
    } else {
      assert (a + b)[1..] == a[1..] + b;
      ConcatAppend(a[1..], b);
    }
  }

  /** The bytes of a longer chunk list start with those of any of its prefixes. */
  lemma ConcatPrefix(chunks: seq<Chunk>, k: nat)
    requires k <= |chunks|
    ensures |Concat(chunks[..k])| <= |Concat(chunks)| && Concat(chunks)[..|Concat(chunks[..k])|] == Concat(chunks[..k])
  {
    ConcatAppend(chunks[..k], chunks[k..]);
    assert chunks == chunks[..k] + chunks[k..];
  }

  /** The dirty byte at `i`; later spans in the list are copied later and win. */
  function Top(spans: seq<Span>, i: nat): Option<Byte> {
    if spans == [] then None
    else
      var last := spans[|spans| - 1];
      if last.Covers(i) then Some(last.data[i - last.start]) else Top(spans[..|spans| - 1], i)
  }

  predicate Sound(c: Cache) {
    && |Concat(c.settled)| == c.settledLen
    && c.baseLen <= |Concat(c.base)| && c.baseLen <= c.length
    && forall k :: 0 <= k < |c.spans| ==> c.spans[k].data != [] && c.spans[k].End() <= c.length
  }

  predicate Apart(spans: seq<Span>, j: int, k: int)
    requires 0 <= j < |spans| && 0 <= k < |spans|
  {
    spans[j].End() < spans[k].start
  }

  /** Sorted, non-empty and separated by at least one byte. */
  predicate WellFormed(spans: seq<Span>) {
    && (forall k :: 0 <= k < |spans| ==> spans[k].data != [])
    && forall j, k :: 0 <= j < k < |spans| ==> Apart(spans, j, k)
  }

  lemma PartWellFormed(spans: seq<Span>, a: nat, z: nat)
    requires WellFormed(spans) && a <= z <= |spans|
    ensures WellFormed(spans[a..z])
  {
    forall j, k | 0 <= j < k < z - a ensures Apart(spans[a..z], j, k) {
      assert Apart(spans, a + j, a + k);
    }
  }

  predicate Valid(c: Cache) {
    Sound(c) && WellFormed(c.spans)
  }

  /** Committed content below the dirty spans. */
  function Under(c: Cache, i: nat): Byte
    requires Sound(c)
  {
    if i < c.settledLen then Concat(c.settled)[i] else if i < c.baseLen then Concat(c.base)[i] else 0
  }

  function ByteAt(c: Cache, i: nat): Byte
    requires Sound(c)
  {
    match Top(c.spans, i)
    case Some(b) => b
    case None => Under(c, i)
  }

  /** The whole logical file. */
  function Content(c: Cache): (r: Bytes)
    requires Sound(c)
    ensures |r| == c.length
    ensures forall i :: 0 <= i < |r| ==> r[i] == ByteAt(c, i)
  {
    seq(c.length, i requires 0 <= i => ByteAt(c, i))
  }

  /** The settled prefix lies inside the file, which holds until a truncation fails. */
  predicate Whole(c: Cache) {
    c.settledLen <= c.length
  }

  /** Letting the file reach up to `n` shows no settled byte that a failed truncation cut off. */
  predicate Quiet(c: Cache, n: nat)
    requires Sound(c)
  {
    forall i :: c.length <= i < n && i < c.settledLen ==> Concat(c.settled)[i] == 0
  }

  /* ---- the flat array ---- */

  function FlatWrite(f: Bytes, off: nat, data: Bytes): Bytes {
    if data == [] then f else Overwrite(f, off, data)
  }

  /* ---- which span holds a byte ---- */

  function ByteOf(s: Span, i: nat): Byte
    requires s.Covers(i)
  {
    s.data[i - s.start]
  }

  /** The last span that covers a byte shows it. */
  lemma {:induction false} TopIs(spans: seq<Span>, k: nat, i: nat)
    requires k < |spans| && spans[k].Covers(i) && forall j :: k < j < |spans| ==> !spans[j].Covers(i)
    ensures Top(spans, i) == Some(ByteOf(spans[k], i))
  {
    if k < |spans| - 1 {
      TopIs(spans[..|spans| - 1], k, i);
    }
  }

  lemma TopHit(spans: seq<Span>, k: nat, i: nat)
    requires WellFormed(spans) && k < |spans| && spans[k].Covers(i)
    ensures Top(spans, i) == Some(ByteOf(spans[k], i))
  {
    forall j | k < j < |spans| ensures !spans[j].Covers(i) {
      assert Apart(spans, k, j);
    }
    TopIs(spans, k, i);
  }

  lemma {:induction false} TopMiss(spans: seq<Span>, i: nat)
    requires forall k :: 0 <= k < |spans| ==> !spans[k].Covers(i)
    ensures Top(spans, i) == None
  {
    if spans != [] {
      TopMiss(spans[..|spans| - 1], i);
    }
  }

  lemma {:induction false} TopWitness(spans: seq<Span>, i: nat) returns (k: nat)
    requires Top(spans, i).Some?
    ensures k < |spans| && spans[k].Covers(i) && Top(spans, i) == Some(ByteOf(spans[k], i))
    ensures forall j :: k < j < |spans| ==> !spans[j].Covers(i)
  {
    k := |spans| - 1;
    if !spans[k].Covers(i) {
      k := TopWitness(spans[..|spans| - 1], i);
    }
  }

  lemma TopSnoc(spans: seq<Span>, s: Span, i: nat)
    ensures Top(spans + [s], i) == if s.Covers(i) then Some(ByteOf(s, i)) else Top(spans, i)
  {
  }

  lemma {:induction false} TopPrepend(s: Span, spans: seq<Span>, i: nat)
    ensures Top([s] + spans, i) == if Top(spans, i).Some? then Top(spans, i) else if s.Covers(i) then Some(ByteOf(s, i)) else None
  {
    if spans == [] {
      assert ([s] + spans)[..0] == [];
    } else {
      var rest, last := spans[..|spans| - 1], spans[|spans| - 1];
      assert [s] + spans == ([s] + rest) + [last];
      TopSnoc([s] + rest, last, i);
      TopPrepend(s, rest, i);
    }
  }

  /** `after` shows `data` at `off` and otherwise what `before` showed. */
  ghost predicate Overlays(before: seq<Span>, off: nat, data: Bytes, after: seq<Span>) {
    forall i: nat :: Top(after, i) == if off <= i < off + |data| then Some(data[i - off]) else Top(before, i)
  }

  /** The cache once a write has changed its spans. */
  function Rewritten(c: Cache, off: nat, data: Bytes, after: seq<Span>): Cache {
    c.(spans := after, length := if off + |data| > c.length then off + |data| else c.length)
  }

  /** Overlaying spans is writing the flat array, unless bytes that were cut off come back below the write. */
  lemma OverlayIsFlatWrite(c: Cache, off: nat, data: Bytes, after: seq<Span>)
    requires Sound(c) && data != [] && Sound(Rewritten(c, off, data, after)) && Overlays(c.spans, off, data, after)
    ensures Content(Rewritten(c, off, data, after)) == FlatWrite(Content(c), off, data) <==> Quiet(c, off)
  {
    var d, flat := Rewritten(c, off, data, after), FlatWrite(Content(c), off, data);
    forall i | 0 <= i < d.length
      ensures ByteAt(d, i) == if c.length <= i < off then Under(c, i) else flat[i]
      ensures c.length <= i < off ==> flat[i] == 0
    {
      assert Top(after, i) == if off <= i < off + |data| then Some(data[i - off]) else Top(c.spans, i);
      assert Under(d, i) == Under(c, i);
      if i >= c.length {
        TopMiss(c.spans, i);
      }
    }
    if Quiet(c, off) {
      assert Content(d) == flat;
    } else {
      var i :| c.length <= i < off && i < c.settledLen && Concat(c.settled)[i] != 0;
      assert Content(d)[i] != flat[i];
    }
  }

  /** Spans that show another byte outside the write do not. */
  lemma OtherByteIsNotFlatWrite(c: Cache, off: nat, data: Bytes, after: seq<Span>, i: nat)
    requires Sound(c) && data != [] && Sound(Rewritten(c, off, data, after)) && i < c.length && !(off <= i < off + |data|)
    requires Top(c.spans, i).Some? && Top(after, i).Some? && Top(after, i) != Top(c.spans, i)
    ensures Content(Rewritten(c, off, data, after)) != FlatWrite(Content(c), off, data)
  {
    assert Content(Rewritten(c, off, data, after))[i] != Content(c)[i];
  }
}
