/**
 The disk image of a physical log (storage/plog.go): how sealing extends it, what reading it back
 proves, and what Commit leaves.
 */
module PlogImage {
  import opened Arith
  import opened Bytes
  import opened Results
  import opened PlogLayout
  import opened PlogTrailer

  /* ---- images ---- */

  /** Behind the superblock the file starts with the given image. */
  predicate Holds(file: Bytes, image: Bytes) {
    |file| >= SECTOR && image <= file[SECTOR..]
  }

  lemma HoldsAppend(file: Bytes, image: Bytes, more: Bytes)
    requires Holds(file, image)
    ensures Holds(Overwrite(file, SECTOR + |image|, more), image + more)
    ensures Overwrite(file, SECTOR + |image|, more)[..SECTOR] == file[..SECTOR]
  {
  }

  lemma HoldsTorn(file: Bytes, image: Bytes, off: nat, torn: Bytes)
    requires Holds(file, image) && SECTOR + |image| <= off
    ensures Holds(file[..Min(off, |file|)] + torn, image)
    ensures (file[..Min(off, |file|)] + torn)[..SECTOR] == file[..SECTOR]
  {
  }

  lemma HoldsResize(file: Bytes, image: Bytes, n: nat)
    requires Holds(file, image) && SECTOR + |image| <= n
    ensures Holds(Resize(file, n), image) && Resize(file, n)[..SECTOR] == file[..SECTOR]
  {
  }

  lemma HoldsLess(file: Bytes, image: Bytes, less: Bytes)
    requires Holds(file, image) && less <= image
    ensures Holds(file, less)
  {
  }

  /** The bytes of the file at a range that lies inside the image. */
  lemma HoldsRange(file: Bytes, image: Bytes, from: nat, to: nat)
    requires Holds(file, image) && SECTOR <= from <= to <= SECTOR + |image|
    ensures to <= |file| && file[from..to] == image[from - SECTOR..to - SECTOR]
  {
  }

  /* ---- sealing ---- */

  lemma Assoc(a: Bytes, b: Bytes, c: Bytes, d: Bytes)
    ensures a + (b + c) == a + b + c && a + (b + c + d) == a + b + c + d
  {
  }

  /** The last sector of a block: its index, and the bytes that go behind the ones already buffered. */
  lemma SealsBlock(cr: Crypto, base: Bytes, sealed: Bytes, sec: Bytes, writeBuf: Bytes, grown: Bytes)
    requires Whole(sealed) && |sec| == SECTOR && base + writeBuf == Layout(cr, sealed)
    requires grown == OpenHashes(cr, sealed) + cr.hash(sec) && |grown| == PER_BLOCK * HASH
    ensures var b := |sealed + sec| / DATA_PER_BLOCK - 1;
            && b >= 0 && base + (writeBuf + sec + (grown + cr.blockMac(b, grown))) == Layout(cr, sealed + sec)
            && OpenHashes(cr, sealed + sec) == []
  {
    var n := Count(sealed) + 1;
    OpenHashesSnoc(cr, sealed, sec);
    SectorAddress(n);
    var b := n / PER_BLOCK - 1;
    assert n % PER_BLOCK == 0;
    LayoutSnocBlock(cr, sealed, sec, b);
    Assoc(base, writeBuf, sec, grown + cr.blockMac(b, grown));
  }

  lemma SealsSector(cr: Crypto, base: Bytes, sealed: Bytes, sec: Bytes, writeBuf: Bytes, grown: Bytes)
    requires Whole(sealed) && |sec| == SECTOR && base + writeBuf == Layout(cr, sealed)
    requires grown == OpenHashes(cr, sealed) + cr.hash(sec) && |grown| != PER_BLOCK * HASH
    ensures base + (writeBuf + sec) == Layout(cr, sealed + sec) && OpenHashes(cr, sealed + sec) == grown
  {
    var n := Count(sealed) + 1;
    OpenHashesSnoc(cr, sealed, sec);
    LayoutSnoc(cr, sealed, sec);
    Assoc(base, writeBuf, sec, []);
  }

  /** One turn of writeLocked's sector loop: the bytes to write, the open digests and the length. */
  method SealSector(cr: Crypto, ghost base: Bytes, ghost sealed: Bytes, sec: Bytes, writeBuf: Bytes, hashes: Bytes, logical: nat)
    returns (writeBuf': Bytes, hashes': Bytes, logical': nat)
    requires Whole(sealed) && |sec| == SECTOR && logical == |sealed|
    requires base + writeBuf == Layout(cr, sealed) && hashes == OpenHashes(cr, sealed)
    ensures Whole(sealed + sec) && logical' == |sealed + sec|
    ensures base + writeBuf' == Layout(cr, sealed + sec) && hashes' == OpenHashes(cr, sealed + sec)
  {
    logical' := logical + SECTOR;
    writeBuf' := writeBuf + sec;
    hashes' := hashes + cr.hash(sec);
    if |hashes'| == PER_BLOCK * HASH {
      SealsBlock(cr, base, sealed, sec, writeBuf, hashes');
      writeBuf' := writeBuf' + (hashes' + cr.blockMac(logical' / DATA_PER_BLOCK - 1, hashes'));
      hashes' := [];
    } else {
      SealsSector(cr, base, sealed, sec, writeBuf, hashes');
    }
  }

  /** Everything writeLocked computes before its one physical write. */
  method SealAll(cr: Crypto, ghost sealed: Bytes, buf: Bytes, hashes: Bytes, logical: nat, data: Bytes)
    returns (writeBuf: Bytes, hashes': Bytes, buf': Bytes, logical': nat, ghost sealed': Bytes)
    requires Whole(sealed) && |buf| < SECTOR <= |buf| + |data|
    requires logical == |sealed| + |buf| && hashes == OpenHashes(cr, sealed)
    ensures Whole(sealed') && sealed <= sealed' && |buf'| < SECTOR && logical' == |sealed'| + |buf'|
    ensures Layout(cr, sealed) + writeBuf == Layout(cr, sealed') && hashes' == OpenHashes(cr, sealed')
    ensures sealed' + buf' == sealed + buf + data
  {
    ghost var base := Layout(cr, sealed);
    var pos := SECTOR - |buf|;
    assert base + [] == base;
    writeBuf, hashes', logical' := SealSector(cr, base, sealed, buf + data[..pos], [], hashes, logical - |buf|);
    sealed' := sealed + (buf + data[..pos]);
    while pos + SECTOR <= |data|
      invariant 0 <= pos <= |data| && Whole(sealed') && logical' == |sealed'|
      invariant base + writeBuf == Layout(cr, sealed') && hashes' == OpenHashes(cr, sealed')
      invariant sealed' == sealed + buf + data[..pos]
    {
      var sec := data[pos..pos + SECTOR];
      writeBuf, hashes', logical' := SealSector(cr, base, sealed', sec, writeBuf, hashes', logical');
      assert data[..pos + SECTOR] == data[..pos] + sec;
      sealed' := sealed' + sec;
      pos := pos + SECTOR;
    }
    buf' := data[pos..];
    logical' := logical' + |buf'|;
    assert data == data[..pos] + data[pos..];
  }

  /* ---- integrity of what is read back ---- */

  function DiskRange(file: Bytes, from: nat, n: nat): Option<Bytes> {
    if from + n <= |file| then Some(file[from..from + n]) else None
  }

  /** A hash sector: 255 digests and the keyed digest over them. */
  predicate TagValid(cr: Crypto, block: nat, rec: Bytes)
    requires |rec| == SECTOR
  {
    rec[PER_BLOCK * HASH..] == cr.blockMac(block, rec[..PER_BLOCK * HASH])
  }

  /** No hash sector now on disk carries a valid tag over digests the log did not write there. */
  ghost predicate NoForgery(cr: Crypto, file: Bytes, sealed: Bytes) {
    forall b: nat :: Completed(sealed, b) ==>
                       var rec := DiskRange(file, HashSectorPhys(b), SECTOR);
                       rec.Some? && TagValid(cr, b, rec.value) ==>
                         rec.value[..PER_BLOCK * HASH] == HashRun(cr, sealed, b * PER_BLOCK, PER_BLOCK)
  }

  predicate Sealed(sealed: Bytes, i: nat) {
    SECTOR * i + SECTOR <= |sealed|
  }

  /** No data sector now on disk differs from the sealed one under the same digest. */
  ghost predicate NoCollision(cr: Crypto, file: Bytes, sealed: Bytes) {
    forall i: nat :: Sealed(sealed, i) ==>
                       var d := DiskRange(file, CalcPhysical(SECTOR * i), SECTOR);
                       d.Some? && cr.hash(d.value) == cr.hash(Sector(sealed, i)) ==> d.value == Sector(sealed, i)
  }

  lemma HeldSector(cr: Crypto, file: Bytes, sealed: Bytes, i: nat)
    requires Holds(file, Layout(cr, sealed)) && Sealed(sealed, i)
    ensures DiskRange(file, CalcPhysical(SECTOR * i), SECTOR) == Some(Sector(sealed, i))
  {
    LayoutSector(cr, sealed, i);
    HoldsRange(file, Layout(cr, sealed), CalcPhysical(SECTOR * i), CalcPhysical(SECTOR * i) + SECTOR);
  }

  lemma HeldHashSector(cr: Crypto, file: Bytes, sealed: Bytes, b: nat)
    requires Holds(file, Layout(cr, sealed)) && Completed(sealed, b)
    ensures DiskRange(file, HashSectorPhys(b), SECTOR) == Some(HashSector(cr, sealed, b))
    ensures HashSector(cr, sealed, b)[..PER_BLOCK * HASH] == HashRun(cr, sealed, b * PER_BLOCK, PER_BLOCK)
    ensures TagValid(cr, b, HashSector(cr, sealed, b))
  {
    LayoutHashSector(cr, sealed, b);
    HoldsRange(file, Layout(cr, sealed), HashSectorPhys(b), HashSectorPhys(b) + SECTOR);
  }

  /** An untouched disk is honest. */
  lemma IntactIsHonest(cr: Crypto, file: Bytes, sealed: Bytes)
    requires Holds(file, Layout(cr, sealed))
    ensures NoForgery(cr, file, sealed) && NoCollision(cr, file, sealed)
  {
    forall b: nat | Completed(sealed, b)
      ensures DiskRange(file, HashSectorPhys(b), SECTOR) == Some(HashSector(cr, sealed, b))
      ensures HashSector(cr, sealed, b)[..PER_BLOCK * HASH] == HashRun(cr, sealed, b * PER_BLOCK, PER_BLOCK)
    {
      HeldHashSector(cr, file, sealed, b);
    }
    forall i: nat | Sealed(sealed, i) ensures DiskRange(file, CalcPhysical(SECTOR * i), SECTOR) == Some(Sector(sealed, i)) {
      HeldSector(cr, file, sealed, i);
    }
  }

  /** Where the digest of sector `i` is kept: in its block's hash sector, or in memory. */
  lemma OpenSector(sealed: Bytes, i: nat)
    requires Whole(sealed) && Sealed(sealed, i)
    ensures Completed(sealed, i / PER_BLOCK) || OpenStart(sealed) == i / PER_BLOCK * PER_BLOCK
    ensures !Completed(sealed, i / PER_BLOCK) ==> i % PER_BLOCK < Count(sealed) - OpenStart(sealed)
  {
  }

  /** Sector `i` of the stream as the log returns it. */
  lemma DigestOf(cr: Crypto, sealed: Bytes, i: nat)
    requires Whole(sealed) && Sealed(sealed, i)
    ensures !Completed(sealed, i / PER_BLOCK) ==>
              && i % PER_BLOCK * HASH + HASH <= |OpenHashes(cr, sealed)|
              && OpenHashes(cr, sealed)[i % PER_BLOCK * HASH..i % PER_BLOCK * HASH + HASH] == cr.hash(Sector(sealed, i))
    ensures Completed(sealed, i / PER_BLOCK) ==>
              HashRun(cr, sealed, i / PER_BLOCK * PER_BLOCK, PER_BLOCK)[i % PER_BLOCK * HASH..i % PER_BLOCK * HASH + HASH] == cr.hash(Sector(sealed, i))
  {
    OpenSector(sealed, i);
    if Completed(sealed, i / PER_BLOCK) {
      HashRunAt(cr, sealed, i / PER_BLOCK * PER_BLOCK, PER_BLOCK, i % PER_BLOCK);
    } else {
      HashRunAt(cr, sealed, OpenStart(sealed), Count(sealed) - OpenStart(sealed), i % PER_BLOCK);
    }
  }

  /** The start of the open block lies inside the image, and the next sector is at or above it. */
  lemma BlockStartBelow(sealed: Bytes, logical: nat)
    requires Whole(sealed) && |sealed| <= logical < |sealed| + SECTOR
    ensures SECTOR <= CalcPhysical(logical / DATA_PER_BLOCK * DATA_PER_BLOCK) <= CalcPhysical(|sealed|)
    ensures logical / DATA_PER_BLOCK == |sealed| / DATA_PER_BLOCK
  {
    SectorAddress(Count(sealed));
    var q := |sealed| / DATA_PER_BLOCK;
    assert q * DATA_PER_BLOCK % DATA_PER_BLOCK == 0 && q * DATA_PER_BLOCK / DATA_PER_BLOCK == q;
  }

  /** A run of a sequence extended by a run of one of its slices. */
  lemma Extends(all: Bytes, run: Bytes, part: Bytes, from: nat, cur: nat, start: nat, stop: nat)
    requires start <= cur <= stop <= start + |part| <= |all| && from <= cur
    requires run == all[from..cur] && part == all[start..start + |part|]
    ensures run + part[cur - start..stop - start] == all[from..stop]
  {
    assert forall i :: 0 <= i < |part| ==> part[i] == all[start..start + |part|][i] == all[start + i];
    assert part[cur - start..stop - start] == all[cur..stop];
  }

  /* ---- digests of the open block ---- */

  function Slot(hashes: Bytes, k: nat): Bytes
    requires HASH * k + HASH <= |hashes|
  {
    hashes[HASH * k..HASH * k + HASH]
  }

  /** Every slot holds its sector's digest, or the zeros that mark a sector as unverified. */
  ghost predicate Slots(cr: Crypto, sealed: Bytes, hashes: Bytes) {
    && |hashes| == |OpenHashes(cr, sealed)|
    && forall k: nat :: HASH * k + HASH <= |hashes| ==>
                          Slot(hashes, k) == Slot(OpenHashes(cr, sealed), k) || Slot(hashes, k) == Zeros(HASH)
  }

  lemma ZeroSlots(cr: Crypto, sealed: Bytes)
    ensures Slots(cr, sealed, Zeros(|OpenHashes(cr, sealed)|))
  {
  }

  /** No sealed sector now on disk has the all-zero digest. */
  ghost predicate NoZero(cr: Crypto, file: Bytes, sealed: Bytes) {
    forall i: nat :: Sealed(sealed, i) ==>
                       var d := DiskRange(file, CalcPhysical(SECTOR * i), SECTOR);
                       d.Some? ==> cr.hash(d.value) != Zeros(HASH)
  }

  /* ---- what Commit leaves on disk ---- */

  predicate HasOpen(cr: Crypto, sealed: Bytes, tail: Bytes) {
    OpenHashes(cr, sealed) != [] || tail != []
  }

  /** A file that ends right behind a completed block. */
  predicate Bounded(cr: Crypto, file: Bytes, sealed: Bytes, tail: Bytes) {
    Whole(sealed) && !HasOpen(cr, sealed, tail) && |file| == CalcPhysical(|sealed|)
  }

  /** The whole committed file: the image, the ragged tail and the trailer, and nothing else. */
  predicate Committed(cr: Crypto, file: Bytes, sealed: Bytes, tail: Bytes) {
    && Whole(sealed) && Holds(file, Layout(cr, sealed))
    && if HasOpen(cr, sealed, tail) then
         Ends(cr, file, sealed, tail) && OnDisk(file, sealed, tail)
       else
         Bounded(cr, file, sealed, tail)
  }

  /** A log that ends on a block boundary, behind a block whose first digest begins like a trailer. */
  predicate Confusable(cr: Crypto, sealed: Bytes, tail: Bytes) {
    && Whole(sealed) && !HasOpen(cr, sealed, tail) && |sealed| >= DATA_PER_BLOCK
    && LooksLikeTrailer(cr.hash(sealed[|sealed| - DATA_PER_BLOCK..|sealed| - DATA_PER_BLOCK + SECTOR]))
  }

  lemma LastBlock(cr: Crypto, sealed: Bytes)
    requires Whole(sealed) && OpenHashes(cr, sealed) == [] && sealed != []
    ensures |sealed| >= DATA_PER_BLOCK && |sealed| % DATA_PER_BLOCK == 0
    ensures var b := |sealed| / DATA_PER_BLOCK - 1;
            && Completed(sealed, b) && CalcPhysical(|sealed|) == HashSectorPhys(b) + SECTOR
            && SECTOR * (b * PER_BLOCK) == |sealed| - DATA_PER_BLOCK
  {
    SectorAddress(Count(sealed));
  }

  lemma FirstDigest(cr: Crypto, sealed: Bytes, b: nat)
    requires Completed(sealed, b)
    ensures HashSector(cr, sealed, b)[..HASH] == cr.hash(Sector(sealed, b * PER_BLOCK))
  {
  }

  /** Such a log is exactly what recoverFromTrailer mistakes for a shorter one. */
  lemma BoundaryParses(cr: Crypto, file: Bytes, sealed: Bytes, tail: Bytes)
    requires Committed(cr, file, sealed, tail) && !HasOpen(cr, sealed, tail)
    ensures Located(file).Some? <==> Confusable(cr, sealed, tail)
  {
    hide Located, Layout, OpenHashes, HashRun, CalcPhysical;
    AtBoundary(cr, file, sealed);
    if sealed != [] {
      LastBlock(cr, sealed);
      var b := |sealed| / DATA_PER_BLOCK - 1;
      HeldHashSector(cr, file, sealed, b);
      FirstDigest(cr, sealed, b);
      assert |file| == HashSectorPhys(b) + SECTOR;
      assert file[|file| - SECTOR..] == HashSector(cr, sealed, b);
      SameFields(file[|file| - SECTOR..], cr.hash(Sector(sealed, b * PER_BLOCK)));
    }
  }

  lemma SameFields(t: Bytes, d: Digest)
    requires |t| == SECTOR && t[..HASH] == d
    ensures CountsBlock(Fields(t)) <==> LooksLikeTrailer(d)
  {
    assert t[..8] == d[..8] && t[8..10] == d[8..10] && t[10..12] == d[10..12];
  }

  lemma CommitBytes(file: Bytes, image: Bytes, tail: Bytes, trailer: Bytes)
    requires Holds(file, image) && |tail| < SECTOR && |trailer| == SECTOR
    ensures var at := SECTOR + |image|;
            var ragged := Overwrite(file, at, tail);
            var all := Resize(Overwrite(ragged, at + SECTOR, trailer), at + 2 * SECTOR);
            && Holds(ragged, image) && Holds(Overwrite(ragged, at + SECTOR, trailer), image) && Holds(all, image)
            && all[at..at + |tail|] == tail && all[|all| - SECTOR..] == trailer
            && (tail == [] ==> ragged == file) && all[..SECTOR] == file[..SECTOR]
  {
  }

  lemma HashRunShift(cr: Crypto, all: Bytes, from: nat, run: Bytes, count: nat)
    requires SECTOR * from + SECTOR * count <= |all|
    requires SECTOR * count <= |run| && run[0..SECTOR * count] == all[SECTOR * from..SECTOR * from + SECTOR * count]
    ensures HashRun(cr, run, 0, count) == HashRun(cr, all, from, count)
  {
    var a, z := HashRun(cr, run, 0, count), HashRun(cr, all, from, count);
    forall j | 0 <= j < HASH * count ensures a[j] == z[j] {
      var k := j / HASH;
      SliceOfSlice(run, 0, SECTOR * count, SECTOR * k, SECTOR);
      SliceOfSlice(all, SECTOR * from, SECTOR * count, SECTOR * k, SECTOR);
    }
  }

  /** The digests of the whole sectors of a verified run. */
  method DigestAll(cr: Crypto, verified: Bytes) returns (h: Bytes)
    ensures h == HashRun(cr, verified, 0, |verified| / SECTOR)
  {
    h := [];
    var k := 0;
    while k < |verified| / SECTOR
      invariant 0 <= k <= |verified| / SECTOR && h == HashRun(cr, verified, 0, k)
    {
      HashRunSnoc(cr, verified, 0, k);
      h := h + cr.hash(Sector(verified, k));
      k := k + 1;
    }
  }

  /** Where a log cut to `n` bytes has its block start, its sealed end and its open sectors. */
  lemma Cut(n: nat)
    ensures var whole, from := n / SECTOR * SECTOR, n / DATA_PER_BLOCK * DATA_PER_BLOCK;
            && whole / SECTOR == n / SECTOR && whole / DATA_PER_BLOCK == n / DATA_PER_BLOCK
            && from <= whole <= n && (n - from) / SECTOR == (whole - from) / SECTOR
            && from == SECTOR * (n / SECTOR / PER_BLOCK * PER_BLOCK)
            && (whole - from) / SECTOR == n / SECTOR - n / SECTOR / PER_BLOCK * PER_BLOCK
            && SECTOR <= CalcPhysical(from) <= CalcPhysical(whole) && CalcPhysical(n) == CalcPhysical(whole) + (n - whole)
  {
    var i := n / SECTOR;
    SectorAddress(i);
    assert n == SECTOR * i + n % SECTOR;
    assert n / DATA_PER_BLOCK == i / PER_BLOCK;
    assert n / DATA_PER_BLOCK * DATA_PER_BLOCK % DATA_PER_BLOCK == 0;
    ImageLenMonotone(n / DATA_PER_BLOCK * DATA_PER_BLOCK, n / SECTOR * SECTOR);
  }

  /** Digests of a verified open block are the open digests of the log cut there. */
  lemma CutHashes(cr: Crypto, all: Bytes, n: nat, verified: Bytes)
    requires n <= |all| && verified == all[n / DATA_PER_BLOCK * DATA_PER_BLOCK..n]
    ensures HashRun(cr, verified, 0, |verified| / SECTOR) == OpenHashes(cr, all[..n / SECTOR * SECTOR])
    ensures verified[|verified| / SECTOR * SECTOR..] == all[n / SECTOR * SECTOR..n]
  {
    Cut(n);
    var from, count := n / SECTOR / PER_BLOCK * PER_BLOCK, |verified| / SECTOR;
    var cut := all[..n / SECTOR * SECTOR];
    assert verified[0..SECTOR * count] == cut[SECTOR * from..SECTOR * from + SECTOR * count];
    HashRunShift(cr, cut, from, verified, count);
  }

  lemma AtBlockEnd(cr: Crypto, sealed: Bytes)
    requires Whole(sealed) && |sealed| % DATA_PER_BLOCK == 0
    ensures OpenHashes(cr, sealed) == []
  {
  }

  lemma CutPlaces(len: nat, n: nat)
    requires len % SECTOR == 0 && n < len + SECTOR
    ensures n / SECTOR * SECTOR <= len && CalcPhysical(n / SECTOR * SECTOR) <= CalcPhysical(n)
    ensures CalcPhysical(n / DATA_PER_BLOCK * DATA_PER_BLOCK) <= CalcPhysical(len)
  {
    hide CalcPhysical;
    CutFloors(len, n);
    ImageLenMonotone(n / SECTOR * SECTOR, n);
    ImageLenMonotone(n / DATA_PER_BLOCK * DATA_PER_BLOCK, len);
  }

  lemma CutFloors(len: nat, n: nat)
    requires len % SECTOR == 0 && n < len + SECTOR
    ensures n / SECTOR * SECTOR <= len && n / SECTOR * SECTOR <= n && n / DATA_PER_BLOCK * DATA_PER_BLOCK <= len
  {
    var b, i, k := n / DATA_PER_BLOCK, len / SECTOR, n / SECTOR;
    assert len == SECTOR * i && k <= i;
    assert PER_BLOCK * b <= k;
    assert b * DATA_PER_BLOCK == SECTOR * (PER_BLOCK * b);
  }

  /** Cutting the file at the physical place of `n` keeps the image of the sectors below it. */
  lemma CutHolds(cr: Crypto, file: Bytes, sealed: Bytes, tail: Bytes, n: nat)
    requires Holds(file, Layout(cr, sealed)) && Whole(sealed) && |tail| < SECTOR && n <= |sealed + tail|
    ensures CalcPhysical(n / DATA_PER_BLOCK * DATA_PER_BLOCK) <= CalcPhysical(|sealed|) <= |file|
    ensures Holds(Resize(file, CalcPhysical(n)), Layout(cr, (sealed + tail)[..n / SECTOR * SECTOR]))
  {
    var k := n / SECTOR * SECTOR;
    CutPlaces(|sealed|, n);
    assert (sealed + tail)[..k] == sealed[..k];
    LayoutPrefix(cr, sealed, k);
    HoldsLess(file, Layout(cr, sealed), Layout(cr, sealed[..k]));
    HoldsResize(file, Layout(cr, sealed[..k]), CalcPhysical(n));
  }
}
