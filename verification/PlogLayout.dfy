/**
 Where a physical log keeps its bytes (storage/plog.go): a superblock sector, then blocks of 255
 data sectors, each completed block followed by a sector with the hashes of its data sectors.
 */
module PlogLayout {
  import opened Bytes

  const PER_BLOCK: nat := 255
  const HASH: nat := 16
  const DATA_PER_BLOCK: nat := 1044480   // 255 * 4096
  const BLOCK: nat := 1048576            // 256 * 4096

  type Digest = d: Bytes | |d| == 16 witness Zeros(16)

  /** SHA-256 and the two keyed digests, truncated to 16 bytes. Nothing is assumed of them here. */
  datatype Crypto = Crypto(hash: Bytes -> Digest, blockMac: (nat, Bytes) -> Digest, openMac: (nat, Bytes, Bytes) -> Digest)

  /* ---- address arithmetic ---- */

  function CalcPhysical(logical: nat): nat {
    SECTOR + logical / DATA_PER_BLOCK * BLOCK + logical % DATA_PER_BLOCK
  }

  function CalcLogical(phys: nat): nat {
    if phys < SECTOR then 0
    else
      var p := phys - SECTOR;
      var rem := p % BLOCK;
      p / BLOCK * DATA_PER_BLOCK + if rem > DATA_PER_BLOCK then DATA_PER_BLOCK else rem
  }

  function HashSectorPhys(block: nat): nat {
    SECTOR + block * BLOCK + DATA_PER_BLOCK
  }

  lemma AddressRoundTrip(logical: nat)
    ensures CalcLogical(CalcPhysical(logical)) == logical
  {
  }

  /** Whole sectors keep their order and their blocks. */
  lemma SectorAddress(i: nat)
    ensures CalcPhysical(SECTOR * i) == SECTOR + SECTOR * (i + i / PER_BLOCK)
    ensures SECTOR * i / DATA_PER_BLOCK == i / PER_BLOCK && SECTOR * i % DATA_PER_BLOCK == SECTOR * (i % PER_BLOCK)
  {
  }

  /* ---- the image of the sealed stream ---- */

  predicate Whole(sealed: Bytes) {
    |sealed| % SECTOR == 0
  }

  function Count(sealed: Bytes): nat {
    |sealed| / SECTOR
  }

  /** Data sector `i` of the stream. */
  function Sector(sealed: Bytes, i: nat): Bytes
    requires SECTOR * i + SECTOR <= |sealed|
  {
    sealed[SECTOR * i..SECTOR * i + SECTOR]
  }

  /** The digests of `count` sectors from sector `from` on. */
  function HashRun(cr: Crypto, sealed: Bytes, from: nat, count: nat): (h: Bytes)
    requires SECTOR * (from + count) <= |sealed|
    ensures |h| == HASH * count
  {
    seq(HASH * count, j requires 0 <= j < HASH * count => cr.hash(Sector(sealed, from + j / HASH))[j % HASH])
  }

  function OpenStart(sealed: Bytes): nat {
    Count(sealed) / PER_BLOCK * PER_BLOCK
  }

  /** The digests of the sealed sectors whose block has no hash sector yet. */
  function OpenHashes(cr: Crypto, sealed: Bytes): Bytes {
    HashRun(cr, sealed, OpenStart(sealed), Count(sealed) - OpenStart(sealed))
  }

  predicate Completed(sealed: Bytes, b: nat) {
    (b + 1) * DATA_PER_BLOCK <= |sealed|
  }

  /** The hash sector of a completed block: its digests and the keyed digest over them. */
  function HashSector(cr: Crypto, sealed: Bytes, b: nat): (h: Bytes)
    requires Completed(sealed, b)
    ensures |h| == SECTOR
  {
    var digests := HashRun(cr, sealed, b * PER_BLOCK, PER_BLOCK);
    digests + cr.blockMac(b, digests)
  }

  function ImageLen(len: nat): nat {
    CalcPhysical(len) - SECTOR
  }

  function ImageByte(cr: Crypto, sealed: Bytes, p: nat): Byte
    requires p < ImageLen(|sealed|)
  {
    var b, r := p / BLOCK, p % BLOCK;
    if r < DATA_PER_BLOCK then sealed[b * DATA_PER_BLOCK + r]
    else HashSector(cr, sealed, b)[r - DATA_PER_BLOCK]
  }

  /** The canonical bytes after the superblock. */
  function Layout(cr: Crypto, sealed: Bytes): (image: Bytes)
    ensures |image| == ImageLen(|sealed|)
  {
    seq(ImageLen(|sealed|), p requires 0 <= p < ImageLen(|sealed|) => ImageByte(cr, sealed, p))
  }

  /** Logical byte `x` sits at CalcPhysical of its offset. */
  lemma LayoutData(cr: Crypto, sealed: Bytes, x: nat)
    requires x < |sealed|
    ensures ImageLen(x) < ImageLen(|sealed|) && Layout(cr, sealed)[ImageLen(x)] == sealed[x]
  {
    var b, r := x / DATA_PER_BLOCK, x % DATA_PER_BLOCK;
    assert ImageLen(x) / BLOCK == b && ImageLen(x) % BLOCK == r;
    assert b <= |sealed| / DATA_PER_BLOCK;
  }

  /** So does every run of bytes that stays within one block. */
  lemma LayoutRun(cr: Crypto, sealed: Bytes, x: nat, n: nat)
    requires x + n <= |sealed| && x % DATA_PER_BLOCK + n <= DATA_PER_BLOCK
    ensures ImageLen(x) + n <= ImageLen(|sealed|) && Layout(cr, sealed)[ImageLen(x)..ImageLen(x) + n] == sealed[x..x + n]
  {
    var image := Layout(cr, sealed);
    forall p | ImageLen(x) <= p < ImageLen(x) + n ensures p < |image| && image[p] == sealed[x + (p - ImageLen(x))] {
      var y := x + (p - ImageLen(x));
      assert y / DATA_PER_BLOCK == x / DATA_PER_BLOCK;
      LayoutData(cr, sealed, y);
    }
    if n > 0 {
      assert ImageLen(x) + n - 1 < |image|;
    } else {
      ImageLenMonotone(x, |sealed|);
    }
    assert image[ImageLen(x)..ImageLen(x) + n] == sealed[x..x + n];
  }

  lemma ImageLenMonotone(x: nat, y: nat)
    requires x <= y
    ensures ImageLen(x) <= ImageLen(y)
  {
  }

  /** Every sealed sector sits at CalcPhysical of its offset. */
  lemma LayoutSector(cr: Crypto, sealed: Bytes, i: nat)
    requires SECTOR * i + SECTOR <= |sealed|
    ensures CalcPhysical(SECTOR * i) <= ImageLen(|sealed|)
    ensures Layout(cr, sealed)[CalcPhysical(SECTOR * i) - SECTOR..CalcPhysical(SECTOR * i)] == Sector(sealed, i)
  {
    SectorAddress(i);
    LayoutRun(cr, sealed, SECTOR * i, SECTOR);
  }

  /** Every completed block is followed by the digests of exactly its own sectors. */
  lemma LayoutHashSector(cr: Crypto, sealed: Bytes, b: nat)
    requires Completed(sealed, b)
    ensures HashSectorPhys(b) <= ImageLen(|sealed|)
    ensures Layout(cr, sealed)[HashSectorPhys(b) - SECTOR..HashSectorPhys(b)] == HashSector(cr, sealed, b)
  {
    var at := HashSectorPhys(b) - SECTOR;
    var image := Layout(cr, sealed);
    forall p | at <= p < at + SECTOR ensures p < |image| && image[p] == HashSector(cr, sealed, b)[p - at] {
      assert p == b * BLOCK + (DATA_PER_BLOCK + (p - at));
      assert p / BLOCK == b && p % BLOCK == DATA_PER_BLOCK + (p - at);
    }
    assert at + SECTOR - 1 < |image|;
  }

  lemma HashRunSame(cr: Crypto, sealed: Bytes, k: nat, from: nat, count: nat)
    requires k <= |sealed| && SECTOR * (from + count) <= k
    ensures HashRun(cr, sealed[..k], from, count) == HashRun(cr, sealed, from, count)
  {
    var a, z := HashRun(cr, sealed[..k], from, count), HashRun(cr, sealed, from, count);
    forall j | 0 <= j < HASH * count ensures a[j] == z[j] {
      var i := from + j / HASH;
      assert Sector(sealed[..k], i) == Sector(sealed, i);
    }
  }

  /** Which data byte or hash sector a physical place belongs to. */
  lemma ImagePlace(len: nat, p: nat)
    requires p < ImageLen(len)
    ensures var b, r := p / BLOCK, p % BLOCK;
            if r < DATA_PER_BLOCK then b * DATA_PER_BLOCK + r < len else SECTOR * (b * PER_BLOCK + PER_BLOCK) <= len
  {
  }

  lemma PrefixByte(cr: Crypto, sealed: Bytes, k: nat, p: nat)
    requires k <= |sealed| && p < ImageLen(k) <= ImageLen(|sealed|)
    ensures ImageByte(cr, sealed[..k], p) == ImageByte(cr, sealed, p)
  {
    hide HashRun, ImageLen;
    ImagePlace(k, p);
    if p % BLOCK >= DATA_PER_BLOCK {
      HashRunSame(cr, sealed, k, p / BLOCK * PER_BLOCK, PER_BLOCK);
    }
  }

  /** Truncating the stream truncates the image. */
  lemma LayoutPrefix(cr: Crypto, sealed: Bytes, k: nat)
    requires k <= |sealed|
    ensures ImageLen(k) <= ImageLen(|sealed|) && Layout(cr, sealed[..k]) == Layout(cr, sealed)[..ImageLen(k)]
  {
    hide ImageLen, ImageByte;
    ImageLenMonotone(k, |sealed|);
    forall p | 0 <= p < ImageLen(k) ensures ImageByte(cr, sealed[..k], p) == ImageByte(cr, sealed, p) {
      PrefixByte(cr, sealed, k, p);
    }
    assert Layout(cr, sealed[..k]) == Layout(cr, sealed)[..ImageLen(k)];
  }

  /** Where the image of `n` sectors ends, and what one more sector adds to it. */
  lemma SnocLengths(n: nat)
    ensures ImageLen(SECTOR * n + SECTOR) == ImageLen(SECTOR * n) + SECTOR + if (n + 1) % PER_BLOCK == 0 then SECTOR else 0
    ensures (n + 1) % PER_BLOCK == 0 ==> HashSectorPhys((n + 1) / PER_BLOCK - 1) == ImageLen(SECTOR * n) + SECTOR + SECTOR
    ensures (n + 1) / PER_BLOCK == n / PER_BLOCK + if (n + 1) % PER_BLOCK == 0 then 1 else 0
  {
    SectorAddress(n);
    SectorAddress(n + 1);
  }

  lemma LayoutSnocData(cr: Crypto, sealed: Bytes, sec: Bytes)
    requires Whole(sealed) && |sec| == SECTOR
    ensures var image, low := Layout(cr, sealed + sec), ImageLen(|sealed|);
            low + SECTOR <= |image| && image[..low] == Layout(cr, sealed) && image[low..low + SECTOR] == sec
  {
    var n, all := Count(sealed), sealed + sec;
    assert all[..|sealed|] == sealed && Sector(all, n) == sec;
    SnocLengths(n);
    LayoutPrefix(cr, all, |sealed|);
    LayoutSector(cr, all, n);
  }

  /** What the writer appends to the file for one more sector: the sector ... */
  lemma LayoutSnoc(cr: Crypto, sealed: Bytes, sec: Bytes)
    requires Whole(sealed) && |sec| == SECTOR && (Count(sealed) + 1) % PER_BLOCK != 0
    ensures Layout(cr, sealed + sec) == Layout(cr, sealed) + sec
  {
    SnocLengths(Count(sealed));
    LayoutSnocData(cr, sealed, sec);
    Assemble(Layout(cr, sealed + sec), Layout(cr, sealed), sec, []);
  }

  /** ... and, when it completes a block, that block's hash sector. */
  lemma LayoutSnocBlock(cr: Crypto, sealed: Bytes, sec: Bytes, b: nat)
    requires Whole(sealed) && |sec| == SECTOR && Count(sealed) + 1 == (b + 1) * PER_BLOCK
    ensures Completed(sealed + sec, b) && Layout(cr, sealed + sec) == Layout(cr, sealed) + sec + HashSector(cr, sealed + sec, b)
  {
    SnocLengths(Count(sealed));
    LayoutSnocData(cr, sealed, sec);
    LayoutHashSector(cr, sealed + sec, b);
    Assemble(Layout(cr, sealed + sec), Layout(cr, sealed), sec, HashSector(cr, sealed + sec, b));
  }

  lemma Assemble(whole: Bytes, a: Bytes, b: Bytes, c: Bytes)
    requires |whole| == |a| + |b| + |c|
    requires whole[..|a|] == a && whole[|a|..|a| + |b|] == b && whole[|a| + |b|..|whole|] == c
    ensures whole == a + b + c && (c == [] ==> whole == a + b)
  {
  }

  /** ... and to the open digests. */
  lemma OpenHashesSnoc(cr: Crypto, sealed: Bytes, sec: Bytes)
    requires Whole(sealed) && |sec| == SECTOR
    ensures var n := Count(sealed) + 1;
            var grown := OpenHashes(cr, sealed) + cr.hash(sec);
            && |grown| == HASH * (n - (n - 1) / PER_BLOCK * PER_BLOCK)
            && if n % PER_BLOCK == 0 then
                 && grown == HashRun(cr, sealed + sec, (n / PER_BLOCK - 1) * PER_BLOCK, PER_BLOCK)
                 && OpenHashes(cr, sealed + sec) == []
               else OpenHashes(cr, sealed + sec) == grown && |grown| < PER_BLOCK * HASH
  {
    var n, all, from := Count(sealed) + 1, sealed + sec, OpenStart(sealed);
    assert n / PER_BLOCK == (n - 1) / PER_BLOCK + if n % PER_BLOCK == 0 then 1 else 0;
    assert all[..|sealed|] == sealed;
    HashRunSame(cr, all, |sealed|, from, n - 1 - from);
    HashRunSnoc(cr, all, from, n - 1 - from);
    assert Sector(all, n - 1) == sec;
  }

  lemma HashRunSnoc(cr: Crypto, sealed: Bytes, from: nat, count: nat)
    requires SECTOR * (from + count + 1) <= |sealed|
    ensures HashRun(cr, sealed, from, count + 1) == HashRun(cr, sealed, from, count) + cr.hash(Sector(sealed, from + count))
  {
  }

  lemma HashRunAt(cr: Crypto, sealed: Bytes, from: nat, count: nat, i: nat)
    requires SECTOR * (from + count) <= |sealed| && i < count
    ensures HashRun(cr, sealed, from, count)[HASH * i..HASH * i + HASH] == cr.hash(Sector(sealed, from + i))
  {
  }
}
