/**
 The record Commit leaves behind an open block (storage/plog.go): the digests of its sealed
 sectors, the length of the ragged tail and a keyed digest over both and over the tail itself.
 */
module PlogTrailer {
  import opened Bytes
  import opened Results
  import opened PlogLayout

  const MAGIC: Bytes := [82, 79, 83, 69, 79, 80, 66, 49]  // ROSEOPB1
  const FLAG: nat := 32768
  const HEADER: nat := 12

  function LittleEndian(n: nat): Bytes
    requires n < 65536
  {
    [n % 256, n / 256]
  }

  function Uint16(b: Bytes): nat
    requires |b| == 2
  {
    b[0] as int + 256 * (b[1] as int)
  }

  /** Everything in front of the keyed digest. */
  function Prefix(hashes: Bytes, ragged: nat): (p: Bytes)
    requires |hashes| < PER_BLOCK * HASH && ragged < SECTOR
    ensures |p| == HEADER + |hashes|
  {
    MAGIC + LittleEndian(|hashes| / HASH) + LittleEndian(if ragged > 0 then ragged + FLAG else 0) + hashes
  }

  /** buildOpenTrailer. */
  function Trailer(cr: Crypto, block: nat, hashes: Bytes, tail: Bytes): (t: Bytes)
    requires |hashes| < PER_BLOCK * HASH && |hashes| % HASH == 0 && |tail| < SECTOR
    ensures |t| == SECTOR
  {
    var p := Prefix(hashes, |tail|);
    p + cr.openMac(block, p, tail) + Zeros(SECTOR - |p| - HASH)
  }

  /** What the last sector says of the open block; `from` is the block's first logical byte. */
  datatype Geometry = Geometry(count: nat, ragged: nat, authenticates: bool, from: nat) {
    function SealedLen(): nat { from + SECTOR * count }
    function Length(): nat { SealedLen() + ragged }
  }

  /** A full trailer sector with the magic and fields in range; size in sectors from the block start. */
  function Fields(t: Bytes): (g: Option<(nat, nat, bool)>)
    requires |t| == SECTOR
    ensures g.Some? ==> g.value.0 < PER_BLOCK && g.value.1 < SECTOR && !(g.value.0 == 0 && g.value.1 == 0)
  {
    var count, field := Uint16(t[8..10]), Uint16(t[10..12]);
    var ragged := if field >= FLAG then field - FLAG else field;
    if t[..8] != MAGIC || count >= PER_BLOCK || ragged >= SECTOR || (count == 0 && ragged == 0) then None
    else Some((count, ragged, field >= FLAG))
  }

  /** The checks recoverFromTrailer makes before it looks at the keyed digest. */
  function Located(file: Bytes): (g: Option<Geometry>)
    ensures g.Some? ==> g.value.count < PER_BLOCK && g.value.ragged < SECTOR && g.value.from % DATA_PER_BLOCK == 0
    ensures g.Some? ==> CalcPhysical(g.value.SealedLen()) + 2 * SECTOR == |file|
  {
    if |file| < 3 * SECTOR then None
    else
      var f := Fields(file[|file| - SECTOR..]);
      if f.None? then None
      else
        var start := |file| - 2 * SECTOR - SECTOR * (f.value.0 + 1);
        if start < 0 || start % BLOCK != 0 then None
        else
          BlockAt(start / BLOCK, f.value.0);
          Some(Geometry(f.value.0, f.value.1, f.value.2, start / BLOCK * DATA_PER_BLOCK))
  }

  lemma BlockAt(b: nat, count: nat)
    requires count < PER_BLOCK
    ensures CalcPhysical(b * DATA_PER_BLOCK + SECTOR * count) == SECTOR + b * BLOCK + SECTOR * count
  {
  }

  /** The bytes a located trailer speaks about. */
  function Ragged(file: Bytes, g: Geometry): Bytes
    requires Located(file) == Some(g)
  {
    var at := CalcPhysical(g.SealedLen());
    file[at..at + g.ragged]
  }

  function Digests(file: Bytes, g: Geometry): (h: Bytes)
    requires Located(file) == Some(g)
    ensures |h| == HASH * g.count
  {
    file[|file| - SECTOR..][HEADER..HEADER + HASH * g.count]
  }

  predicate Authentic(cr: Crypto, file: Bytes, g: Geometry)
    requires Located(file) == Some(g)
  {
    var t, end := file[|file| - SECTOR..], HEADER + HASH * g.count;
    t[end..end + HASH] == cr.openMac(g.from / DATA_PER_BLOCK, t[..end], if g.authenticates then Ragged(file, g) else [])
  }

  /** recoverFromTrailer answers true. */
  predicate Recognized(cr: Crypto, file: Bytes) {
    var g := Located(file);
    g.Some? && (Authentic(cr, file, g.value) || g.value.authenticates)
  }

  /** Reading back the fields of a trailer. */
  lemma TrailerFields(cr: Crypto, block: nat, hashes: Bytes, tail: Bytes)
    requires |hashes| < PER_BLOCK * HASH && |hashes| % HASH == 0 && |tail| < SECTOR && (hashes != [] || tail != [])
    ensures var t, end := Trailer(cr, block, hashes, tail), HEADER + |hashes|;
            && Fields(t) == Some((|hashes| / HASH, |tail|, |tail| > 0))
            && t[HEADER..end] == hashes && t[..end] == Prefix(hashes, |tail|)
            && t[end..end + HASH] == cr.openMac(block, Prefix(hashes, |tail|), tail)
  {
  }

  /** The file ends in the trailer of this open block; the rest of it may have rotted. */
  predicate Ends(cr: Crypto, file: Bytes, sealed: Bytes, tail: Bytes) {
    && Whole(sealed) && |tail| < SECTOR && (OpenHashes(cr, sealed) != [] || tail != [])
    && |file| == CalcPhysical(|sealed|) + 2 * SECTOR
    && file[|file| - SECTOR..] == Trailer(cr, |sealed| / DATA_PER_BLOCK, OpenHashes(cr, sealed), tail)
  }

  lemma LocatedAt(file: Bytes, count: nat, ragged: nat, authenticates: bool, b: nat)
    requires |file| == SECTOR + b * BLOCK + SECTOR * count + 2 * SECTOR
    requires Fields(file[|file| - SECTOR..]) == Some((count, ragged, authenticates))
    ensures Located(file) == Some(Geometry(count, ragged, authenticates, b * DATA_PER_BLOCK))
  {
  }

  lemma OpenCount(cr: Crypto, sealed: Bytes)
    requires Whole(sealed)
    ensures var n := Count(sealed);
            && |OpenHashes(cr, sealed)| == HASH * (n % PER_BLOCK) && |sealed| / DATA_PER_BLOCK == n / PER_BLOCK
            && |sealed| == n / PER_BLOCK * DATA_PER_BLOCK + SECTOR * (n % PER_BLOCK)
            && n / PER_BLOCK * DATA_PER_BLOCK / DATA_PER_BLOCK == n / PER_BLOCK
            && CalcPhysical(|sealed|) == SECTOR + n / PER_BLOCK * BLOCK + SECTOR * (n % PER_BLOCK)
  {
  }

  /** Such a trailer is found, with the open block's own geometry, digests and keyed digest. */
  lemma EndsLocated(cr: Crypto, file: Bytes, sealed: Bytes, tail: Bytes)
    requires Ends(cr, file, sealed, tail)
    ensures var g := Located(file);
            && g.Some? && g.value.SealedLen() == |sealed| && g.value.ragged == |tail| && g.value.authenticates == (|tail| > 0)
            && Digests(file, g.value) == OpenHashes(cr, sealed)
            && (Ragged(file, g.value) == tail ==> Authentic(cr, file, g.value))
            && (Authentic(cr, file, g.value) ==>
                  var b, p := |sealed| / DATA_PER_BLOCK, Prefix(OpenHashes(cr, sealed), |tail|);
                  cr.openMac(b, p, Ragged(file, g.value)) == cr.openMac(b, p, tail))
  {
    hide Trailer, Fields, Located, OpenHashes, CalcPhysical;
    var n, hashes := Count(sealed), OpenHashes(cr, sealed);
    OpenCount(cr, sealed);
    TrailerFields(cr, |sealed| / DATA_PER_BLOCK, hashes, tail);
    LocatedAt(file, n % PER_BLOCK, |tail|, |tail| > 0, n / PER_BLOCK);
    assert |tail| == 0 ==> Ragged(file, Located(file).value) == [] == tail;
  }

  /** A log that ends on a block boundary has no trailer; its last sector is that block's hash sector. */
  lemma AtBoundary(cr: Crypto, file: Bytes, sealed: Bytes)
    requires Whole(sealed) && OpenHashes(cr, sealed) == [] && |file| == CalcPhysical(|sealed|)
    ensures CalcLogical(|file|) == |sealed| && |sealed| % DATA_PER_BLOCK == 0
    ensures Located(file).Some? <==> sealed != [] && |file| >= SECTOR && CountsBlock(Fields(file[|file| - SECTOR..]))
    ensures Located(file).Some? ==> Located(file).value.Length() < |sealed|
  {
    hide Fields, CalcPhysical, OpenHashes;
    var blocks := BoundarySize(cr, sealed);
    AddressRoundTrip(|sealed|);
    if |file| >= 3 * SECTOR && Fields(file[|file| - SECTOR..]).Some? {
      BoundaryStart(blocks, Fields(file[|file| - SECTOR..]).value.0);
    }
  }

  lemma BoundarySize(cr: Crypto, sealed: Bytes) returns (blocks: nat)
    requires Whole(sealed) && OpenHashes(cr, sealed) == []
    ensures |sealed| == blocks * DATA_PER_BLOCK && CalcPhysical(|sealed|) == SECTOR + blocks * BLOCK && |sealed| % DATA_PER_BLOCK == 0
  {
    SectorAddress(Count(sealed));
    blocks := |sealed| / DATA_PER_BLOCK;
  }

  /** From the end of a whole number of blocks only 254 sectors and the trailer's place reach back to a block start. */
  lemma BoundaryStart(blocks: nat, count: nat)
    requires count < PER_BLOCK
    ensures var start := SECTOR + blocks * BLOCK - 2 * SECTOR - SECTOR * (count + 1);
            && (start >= 0 && start % BLOCK == 0 <==> blocks > 0 && count == PER_BLOCK - 1)
            && (start >= 0 && start % BLOCK == 0 ==> start / BLOCK == blocks - 1)
  {
  }

  /** Fields of a trailer that would end exactly one sector short of a block. */
  predicate CountsBlock(g: Option<(nat, nat, bool)>) {
    g.Some? && g.value.0 == PER_BLOCK - 1
  }

  /** A digest whose bytes begin like such a trailer. */
  predicate LooksLikeTrailer(d: Digest) {
    && d[..8] == MAGIC && Uint16(d[8..10]) == PER_BLOCK - 1
    && var field := Uint16(d[10..12]); (if field >= FLAG then field - FLAG else field) < SECTOR
  }

  /** The ragged bytes now on disk are the committed ones, or the keyed digest tells them apart. */
  predicate TailHonest(cr: Crypto, file: Bytes, sealed: Bytes, tail: Bytes)
    requires Ends(cr, file, sealed, tail)
  {
    var at, b, p := CalcPhysical(|sealed|), |sealed| / DATA_PER_BLOCK, Prefix(OpenHashes(cr, sealed), |tail|);
    var now := file[at..at + |tail|];
    cr.openMac(b, p, now) == cr.openMac(b, p, tail) ==> now == tail
  }

  /** The state recoverFromTrailer leaves for a located trailer. */
  predicate Adopted(cr: Crypto, file: Bytes, g: Geometry, len: nat, buf: Bytes, hashes: Bytes, corrupt: bool)
    requires Located(file) == Some(g)
  {
    && len == g.Length() && |buf| == g.ragged && |hashes| == HASH * g.count
    && (Authentic(cr, file, g) ==> buf == Ragged(file, g) && hashes == Digests(file, g) && !corrupt)
    && (!Authentic(cr, file, g) && g.authenticates ==> corrupt && hashes == Zeros(HASH * g.count))
  }

  predicate OnDisk(file: Bytes, sealed: Bytes, tail: Bytes) {
    var at := CalcPhysical(|sealed|);
    at + |tail| <= |file| && file[at..at + |tail|] == tail
  }

  /** What that means when the trailer is the committed one: the right length, and the right digests and
      tail or neither. */
  lemma EndsAdopted(cr: Crypto, file: Bytes, sealed: Bytes, tail: Bytes, len: nat, buf: Bytes, hashes: Bytes, corrupt: bool)
    requires Ends(cr, file, sealed, tail) && TailHonest(cr, file, sealed, tail)
    requires Located(file).Some? ==> Adopted(cr, file, Located(file).value, len, buf, hashes, corrupt)
    ensures Recognized(cr, file) && len == |sealed| + |tail| && |buf| == |tail|
    ensures if corrupt then hashes == Zeros(|OpenHashes(cr, sealed)|) else buf == tail && hashes == OpenHashes(cr, sealed)
    ensures OnDisk(file, sealed, tail) ==> !corrupt
  {
    EndsLocated(cr, file, sealed, tail);
    var g := Located(file).value;
    assert Ragged(file, g) == file[CalcPhysical(|sealed|)..CalcPhysical(|sealed|) + |tail|];
    assert |tail| == 0 ==> Ragged(file, g) == tail;
  }
}
