/**
 Chunk reference counts (meta/queries.go): the rows of the chunk table, and the occurrences they
 have to add up to.
 */
module Refs {
  type Hash = nat

  /** Where the bytes of a chunk are. */
  datatype Location = Location(vlog: nat, offset: nat, len: nat, stored: nat)

  datatype Chunk = Chunk(refs: int, at: Location)

  datatype Placement = Placement(hash: Hash, at: Location)

  type Chunks = map<Hash, Chunk>

  /** File versions: the chunk of each extent, in order. */
  type Files = map<nat, seq<Hash>>

  /* ---- occurrences ---- */

  function Extents(files: Files, id: nat): seq<Hash> {
    if id in files then files[id] else []
  }

  /** All chunk occurrences of the versions a table refers to. */
  ghost function Total<K(!new)>(files: Files, ids: map<K, nat>): multiset<Hash> {
    if ids == map[] then multiset{}
    else
      var k :| k in ids;
      multiset(Extents(files, ids[k])) + Total(files, ids - {k})
  }

  lemma {:induction false} TotalRemove<K(!new)>(files: Files, ids: map<K, nat>, k: K)
    requires k in ids
    ensures Total(files, ids) == multiset(Extents(files, ids[k])) + Total(files, ids - {k})
    decreases |ids|
  {
    var j :| j in ids && Total(files, ids) == multiset(Extents(files, ids[j])) + Total(files, ids - {j});
    if j != k {
      var both := ids - {j} - {k};
      assert ids - {k} - {j} == both;
      Smaller(ids, j);
      Smaller(ids, k);
      TotalRemove(files, ids - {j}, k);
      TotalRemove(files, ids - {k}, j);
    }
  }

  lemma Smaller<K>(ids: map<K, nat>, k: K)
    requires k in ids
    ensures |ids - {k}| < |ids|
  {
  }

  lemma TotalInsert<K(!new)>(files: Files, ids: map<K, nat>, k: K, id: nat)
    requires k !in ids
    ensures Total(files, ids[k := id]) == multiset(Extents(files, id)) + Total(files, ids)
  {
    TotalRemove(files, ids[k := id], k);
    assert ids[k := id] - {k} == ids;
  }

  /** Versions nobody refers to do not matter. */
  lemma {:induction false} TotalSame<K(!new)>(files: Files, files': Files, ids: map<K, nat>)
    requires forall k :: k in ids ==> Extents(files, ids[k]) == Extents(files', ids[k])
    ensures Total(files, ids) == Total(files', ids)
    decreases |ids|
  {
    if ids != map[] {
      var k :| k in ids;
      Smaller(ids, k);
      TotalRemove(files, ids, k);
      TotalRemove(files', ids, k);
      TotalSame(files, files', ids - {k});
    }
  }

  /** Two tables that agree up to the names of their keys. */
  ghost predicate Renamed<K(!new), L(!new)>(a: map<K, nat>, b: map<L, nat>, to: map<K, L>, back: map<L, K>) {
    && to.Keys == a.Keys && back.Keys == b.Keys
    && (forall k :: k in a ==> to[k] in b && back[to[k]] == k && b[to[k]] == a[k])
    && (forall l :: l in b ==> back[l] in a && to[back[l]] == l)
  }

  lemma {:induction false} TotalRenamed<K(!new), L(!new)>(files: Files, a: map<K, nat>, b: map<L, nat>, to: map<K, L>, back: map<L, K>)
    requires Renamed(a, b, to, back)
    ensures Total(files, a) == Total(files, b)
    decreases |a|
  {
    if a == map[] {
      assert b == map[];
    } else {
      var k :| k in a;
      Smaller(a, k);
      TotalRemove(files, a, k);
      TotalRemove(files, b, to[k]);
      TotalRenamed(files, a - {k}, b - {to[k]}, to - {k}, back - {to[k]});
    }
  }

  /* ---- changing counts ---- */

  /** One step of adjustChunkRefs: an absent row is silently skipped. */
  function Adjust1(chunks: Chunks, h: Hash, delta: int): Chunks {
    if h in chunks then chunks[h := Chunk(chunks[h].refs + delta, chunks[h].at)] else chunks
  }

  function Adjust(chunks: Chunks, hashes: seq<Hash>, delta: int): Chunks
    decreases |hashes|
  {
    if hashes == [] then chunks else Adjust(Adjust1(chunks, hashes[0], delta), hashes[1..], delta)
  }

  method AdjustLoop(chunks: Chunks, hashes: seq<Hash>, delta: int) returns (r: Chunks)
    ensures r == Adjust(chunks, hashes, delta)
  {
    r := chunks;
    var i := 0;
    assert hashes[0..] == hashes;
    while i < |hashes|
      invariant 0 <= i <= |hashes| && Adjust(r, hashes[i..], delta) == Adjust(chunks, hashes, delta)
    {
      assert hashes[i..][1..] == hashes[i + 1..];
      r := Adjust1(r, hashes[i], delta);
      i := i + 1;
    }
    assert hashes[i..] == [];
  }

  /** Each row changes by `delta` per occurrence; no row comes, goes or moves. */
  lemma {:induction false} AdjustMeaning(chunks: Chunks, hashes: seq<Hash>, delta: int)
    ensures var r := Adjust(chunks, hashes, delta);
            && r.Keys == chunks.Keys
            && forall h :: h in chunks ==> r[h].at == chunks[h].at && r[h].refs == chunks[h].refs + delta * multiset(hashes)[h]
    decreases |hashes|
  {
    if hashes != [] {
      var next := Adjust1(chunks, hashes[0], delta);
      AdjustMeaning(next, hashes[1..], delta);
      assert hashes == [hashes[0]] + hashes[1..];
      var r := Adjust(chunks, hashes, delta);
      forall h | h in chunks ensures r[h].at == chunks[h].at && r[h].refs == chunks[h].refs + delta * multiset(hashes)[h] {
        assert multiset(hashes)[h] == multiset(hashes[1..])[h] + if h == hashes[0] then 1 else 0;
        Distribute(delta, multiset(hashes[1..])[h], if h == hashes[0] then 1 else 0);
      }
    }
  }

  lemma Distribute(d: int, a: int, b: int)
    ensures d * (a + b) == d * a + d * b
  {
  }

  /** One row of upsertChunkRefs: a dead row is repointed at the fresh bytes, a live one keeps its place. */
  function Upsert1(chunks: Chunks, p: Placement): Chunks {
    if p.hash !in chunks then chunks[p.hash := Chunk(1, p.at)]
    else
      var c := chunks[p.hash];
      chunks[p.hash := Chunk(c.refs + 1, if c.refs == 0 then p.at else c.at)]
  }

  function Upsert(chunks: Chunks, ps: seq<Placement>): Chunks
    decreases |ps|
  {
    if ps == [] then chunks else Upsert(Upsert1(chunks, ps[0]), ps[1..])
  }

  function Hashes(ps: seq<Placement>): (hs: seq<Hash>)
    ensures |hs| == |ps|
  {
    seq(|ps|, i requires 0 <= i < |ps| => ps[i].hash)
  }

  method UpsertLoop(chunks: Chunks, ps: seq<Placement>) returns (r: Chunks)
    ensures r == Upsert(chunks, ps)
  {
    r := chunks;
    var i := 0;
    assert ps[0..] == ps;
    while i < |ps|
      invariant 0 <= i <= |ps| && Upsert(r, ps[i..]) == Upsert(chunks, ps)
    {
      assert ps[i..][1..] == ps[i + 1..];
      r := Upsert1(r, ps[i]);
      i := i + 1;
    }
    assert ps[i..] == [];
  }

  /** The first place offered for a chunk. */
  function FirstAt(ps: seq<Placement>, h: Hash): Location
    requires h in Hashes(ps)
  {
    if ps[0].hash == h then ps[0].at
    else
      assert Hashes(ps) == [ps[0].hash] + Hashes(ps[1..]);
      FirstAt(ps[1..], h)
  }

  ghost predicate Counted(chunks: Chunks) {
    forall h :: h in chunks ==> chunks[h].refs >= 0
  }

  /** Every placement counts once. */
  lemma {:induction false} UpsertCounts(chunks: Chunks, ps: seq<Placement>)
    ensures var r := Upsert(chunks, ps);
            && (forall h :: h in r <==> h in chunks || h in Hashes(ps))
            && (forall h :: h in r ==> r[h].refs == (if h in chunks then chunks[h].refs else 0) + multiset(Hashes(ps))[h])
    decreases |ps|
  {
    if ps != [] {
      UpsertCounts(Upsert1(chunks, ps[0]), ps[1..]);
      assert Hashes(ps) == [ps[0].hash] + Hashes(ps[1..]);
    }
  }

  /** A chunk that was live stays where it was; a new or dead one is where the first placement that mentions it put
      the bytes. */
  lemma {:induction false} UpsertPlaces(chunks: Chunks, ps: seq<Placement>, h: Hash)
    requires Counted(chunks) && (h in chunks || h in Hashes(ps))
    ensures var r := Upsert(chunks, ps);
            && h in r
            && (h in chunks && (chunks[h].refs > 0 || h !in Hashes(ps)) ==> r[h].at == chunks[h].at)
            && (h in Hashes(ps) && (h in chunks ==> chunks[h].refs == 0) ==> r[h].at == FirstAt(ps, h))
    decreases |ps|
  {
    if ps != [] {
      assert Hashes(ps) == [ps[0].hash] + Hashes(ps[1..]);
      UpsertPlaces(Upsert1(chunks, ps[0]), ps[1..], h);
    }
  }

  /* ---- counts against occurrences ---- */

  /** Every count moved by the occurrences in `m`. */
  function Shift(chunks: Chunks, m: multiset<Hash>, sign: int): Chunks {
    map h | h in chunks :: Chunk(chunks[h].refs + sign * m[h], chunks[h].at)
  }

  lemma AdjustIsShift(chunks: Chunks, hashes: seq<Hash>, delta: int)
    ensures Adjust(chunks, hashes, delta) == Shift(chunks, multiset(hashes), delta)
  {
    AdjustMeaning(chunks, hashes, delta);
  }

  lemma ShiftShift(chunks: Chunks, a: multiset<Hash>, b: multiset<Hash>, sign: int)
    ensures Shift(Shift(chunks, a, sign), b, sign) == Shift(chunks, a + b, sign)
  {
    var l, r := Shift(Shift(chunks, a, sign), b, sign), Shift(chunks, a + b, sign);
    forall h | h in chunks ensures l[h] == r[h] {
      Distribute(sign, a[h], b[h]);
    }
  }

  /** Each count is the number of occurrences, and whatever occurs has a row. */
  ghost predicate Exact(chunks: Chunks, uses: multiset<Hash>) {
    (forall h :: h in chunks ==> chunks[h].refs == uses[h]) && (forall h :: h in uses ==> h in chunks)
  }

  lemma ShiftDown(chunks: Chunks, uses: multiset<Hash>, m: multiset<Hash>)
    requires Exact(chunks, uses + m)
    ensures Exact(Shift(chunks, m, -1), uses)
  {
  }

  lemma ShiftUp(chunks: Chunks, uses: multiset<Hash>, m: multiset<Hash>)
    requires Exact(chunks, uses) && m <= uses
    ensures Exact(Shift(chunks, m, 1), uses + m)
  {
  }

  lemma UpsertExact(chunks: Chunks, uses: multiset<Hash>, ps: seq<Placement>)
    requires Exact(chunks, uses)
    ensures Exact(Upsert(chunks, ps), uses + multiset(Hashes(ps)))
  {
    UpsertCounts(chunks, ps);
    forall h | h in uses + multiset(Hashes(ps)) ensures h in Upsert(chunks, ps) {
      assert h in uses || h in Hashes(ps);
    }
    forall h | h in Upsert(chunks, ps) ensures Upsert(chunks, ps)[h].refs == (uses + multiset(Hashes(ps)))[h] {
      assert h !in chunks ==> h !in uses;
    }
  }
}
