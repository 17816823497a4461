/**
 A physical log (storage/plog.go): sectors sealed into hash-protected blocks, the ragged tail in
 memory. The abstraction is the plain byte sequence that was appended and truncated.
 */
module PlogModel {
  import opened Arith
  import opened Bytes
  import opened Results
  import opened PlogLayout
  import opened PlogTrailer
  import opened PlogImage
  import J = Journal
  import opened Durability

  predicate InRange(offset: int, length: int, size: nat) {
    0 <= offset && 0 <= length && length <= MAX_INT64 - offset && offset + length <= size
  }

  /** `data` can be placed at `offset` without a gap and without changing a byte. */
  predicate Agrees(all: Bytes, offset: nat, data: Bytes) {
    offset <= |all| && (all[offset..] <= data || data <= all[offset..])
  }

  lemma AgreesOverlap(all: Bytes, offset: nat, data: Bytes)
    requires offset <= |all|
    ensures var n := Min(|all| - offset, |data|);
            Agrees(all, offset, data) <==> all[offset..offset + n] == data[..n]
  {
    var n := Min(|all| - offset, |data|);
    assert all[offset..][..n] == all[offset..offset + n];
    if n == |data| {
      assert data[..n] == data;
    } else {
      assert all[offset..offset + n] == all[offset..];
    }
  }

  /** Appending what is missing of such a run. */
  lemma Extended(all: Bytes, offset: nat, data: Bytes)
    requires Agrees(all, offset, data)
    ensures var n := Min(|all| - offset, |data|);
            var next := all + data[n..];
            |next| == Max(|all|, offset + |data|) && next[offset..offset + |data|] == data && (n == |data| ==> next == all)
  {
  }

  class Plog {
    const cr: Crypto
    var file: Bytes
    var logicalLength: nat
    var buf: Bytes
    var hashes: Bytes
    var bufCorrupt: bool
    var openUnverified: bool
    var undo: J.Entry        // the journal file
    var undoActive: bool
    var undoStart: nat
    ghost var sealed: Bytes  // the sealed sectors as they were written
    ghost var tail: Bytes    // the bytes behind them as they were written
    ghost var trail: seq<Moment>  // the system calls since the file was opened

    /** The sector boundaries are right, and memory holds no digest and no tail that is wrong without
        being marked. Says nothing about the disk. */
    ghost predicate Framed()
      reads this
    {
      && Whole(sealed) && |tail| == |buf| < SECTOR && logicalLength == |sealed| + |buf|
      && Slots(cr, sealed, hashes) && (!bufCorrupt ==> buf == tail)
    }

    /** Memory vouches for every sealed sector of the open block and for the tail. */
    ghost predicate Trusted()
      reads this
    {
      && Whole(sealed) && buf == tail && |buf| < SECTOR && logicalLength == |sealed| + |buf|
      && hashes == OpenHashes(cr, sealed) && !bufCorrupt && !openUnverified
    }

    /** The disk holds the image of the sealed sectors, and the journal covers everything behind it. A log
        that is not journaled and has nothing open already has its exact committed size. */
    ghost predicate Intact()
      reads this
    {
      && Trusted() && Holds(file, Layout(cr, sealed)) && (undoActive ==> undoStart <= CalcPhysical(|sealed|))
      && (!undoActive && buf == [] && hashes == [] ==> |file| == CalcPhysical(logicalLength))
    }

    /** Everything appended and not truncated since. */
    ghost function Contents(): Bytes
      reads this
    {
      sealed + tail
    }

    /** The disk exhibits no forged tag, no digest collision and no accidental all-zero digest. */
    ghost predicate Honest()
      reads this
    {
      && NoForgery(cr, file, sealed) && NoCollision(cr, file, sealed)
      && (hashes != OpenHashes(cr, sealed) ==> NoZero(cr, file, sealed))
    }

    ghost function Now(): Log
      reads this
    {
      Log(sealed, tail)
    }

    /** File, journal and protection are where the run of system calls left them, and at every moment of that run
        a power loss brings back the log of the last acknowledged commit or of one begun after it. */
    ghost predicate Backed()
      reads this
    {
      Backs(cr, trail, file, undo, undoActive, undoStart)
    }

    ghost predicate Sound()
      reads this
    {
      Intact() && Backed()
    }

    /* ---- the journal discipline: no physical change below the protected start ---- */

    /** protectPrefixLocked and saveUndo: success means every later change from `start` on can be undone. */
    method ProtectPrefix(start: nat, o: Outcome) returns (ok: bool)
      requires start >= SECTOR
      modifies this`undo, this`undoActive, this`undoStart, this`trail
      ensures ok ==> undoActive && undoStart <= start
      ensures !ok ==> undoActive == old(undoActive) && undoStart == old(undoStart)
      ensures old(Backed()) && start <= |file| ==> Backed() && Quietly(old(trail), trail) && (o.Saved() ==> ok)
    {
      hide J.PlanSave, Backs, Quietly, SaveCalls;
      if undoActive && start >= undoStart {
        if Backed() {
          QuietHere(cr, trail, file, undo, undoActive, undoStart);
        }
        return true;
      }
      if Backed() && start <= |file| {
        SaveBacked(cr, trail, file, undo, undoActive, undoStart, start, o, Now());
      }
      trail := SaveCalls(trail, start, o, Now());
      match J.PlanSave(file, undo, start) {
        case Fail => return false;
        case Resync =>
        case Fresh(record) =>
          if !o.undoSynced || !o.undoRenamed {
            return false;
          }
          undo := J.Saved(record);
      }
      if !o.undoNamed {
        return false;
      }
      undoActive, undoStart := true, start;
      return true;
    }

    /** writePhysical. A write that fails leaves anything from its offset on. */
    method WritePhysical(data: Bytes, off: nat, written: bool, torn: Bytes)
      requires undoActive && undoStart <= off
      modifies this`file, this`trail
      ensures file == if written then Overwrite(old(file), off, data) else old(file)[..Min(off, |old(file)|)] + torn
      ensures old(Backed()) ==> Backed() && Quietly(old(trail), trail)
    {
      hide Backs, Quietly, Extend;
      var image := if written then Overwrite(file, off, data) else file[..Min(off, |file|)] + torn;
      if Backed() {
        StartInside(cr, trail, file, undo, undoActive, undoStart);
        assert image[..undoStart] == file[..undoStart];
        ChangeBacked(cr, trail, file, undo, undoActive, undoStart, image, Now());
      }
      trail := Extend(trail, J.Mutate(image), Now());
      file := image;
    }

    method TruncateFile(n: nat, done: bool)
      requires n == |file| || (undoActive && undoStart <= n)
      modifies this`file, this`trail
      ensures file == if done then Resize(old(file), n) else old(file)
      ensures old(Backed()) ==> Backed() && Quietly(old(trail), trail)
    {
      hide Backs, Quietly, Extend;
      if done {
        var image := Resize(file, n);
        if Backed() {
          if n != |file| {
            StartInside(cr, trail, file, undo, undoActive, undoStart);
          }
          assert if n == |file| then image == file else image[..undoStart] == file[..undoStart];
          ChangeBacked(cr, trail, file, undo, undoActive, undoStart, image, Now());
        }
        trail := Extend(trail, J.Mutate(image), Now());
        file := image;
      } else if Backed() {
        QuietHere(cr, trail, file, undo, undoActive, undoStart);
      }
    }

    /** commitUndo: success acknowledges exactly the present log and leaves no journal that could come back;
        failure acknowledges nothing, but the commit may have got through. */
    method CommitUndo(o: Outcome) returns (ok: bool)
      modifies this`undo, this`undoActive, this`trail
      ensures !undoActive && (o.Retired() ==> ok)
      ensures old(Backed()) && Committed(cr, file, sealed, tail) ==>
                && Backed() && Committing(old(trail), trail, Now())
                && Acknowledges(old(trail)[|old(trail)| - 1], trail[|trail| - 1], Now(), ok)
    {
      hide Backs, RetireCalls, Committing, Acknowledges, Committed;
      if Backed() && Committed(cr, file, sealed, tail) {
        RetireBacked(cr, trail, file, undo, undoActive, undoStart, o, Now());
      }
      trail := RetireCalls(trail, o, Now());
      undoActive := false;
      if !o.synced {
        return false;
      }
      if !undo.Absent? {
        if !o.removed {
          return false;
        }
        undo := J.Absent;
      }
      return o.unnamed;
    }

    /** A physical write right behind an image extends it, or leaves it as it was. */
    method WriteBehind(ghost image: Bytes, more: Bytes, off: nat, written: bool, torn: Bytes)
      requires undoActive && undoStart <= off && off == SECTOR + |image|
      modifies this`file, this`trail
      ensures old(Holds(file, image)) ==> Holds(file, if written then image + more else image)
      ensures old(Backed()) ==> Backed() && Quietly(old(trail), trail)
      ensures |old(file)| >= SECTOR ==> |file| >= SECTOR && file[..SECTOR] == old(file)[..SECTOR]
    {
      if Holds(file, image) {
        HoldsAppend(file, image, more);
        HoldsTorn(file, image, off, torn);
      }
      WritePhysical(more, off, written, torn);
    }

    /* ---- appending ---- */

    /** writeLocked: appends exactly `data` or, when the journal or the disk refuses, nothing. */
    method Write(data: Bytes, o: Outcome) returns (r: Result<nat>)
      requires bufCorrupt || openUnverified || Trusted()
      modifies this
      ensures old(bufCorrupt || openUnverified) ==>
                && r.Err? && file == old(file) && logicalLength == old(logicalLength) && buf == old(buf) && hashes == old(hashes)
                && sealed == old(sealed) && tail == old(tail) && bufCorrupt == old(bufCorrupt) && openUnverified == old(openUnverified)
      ensures old(Trusted()) ==> Trusted() && old(sealed) <= sealed
      ensures r.Ok? ==> r.value == old(logicalLength) && Contents() == old(Contents()) + data
      ensures r.Err? ==> Contents() == old(Contents())
      ensures old(Intact()) ==> Intact()
      ensures old(Sound()) ==> Sound() && Quietly(old(trail), trail) && (o.Saved() && o.written ==> r.Ok?)
      ensures |old(file)| >= SECTOR ==> |file| >= SECTOR && file[..SECTOR] == old(file)[..SECTOR]
    {
      if bufCorrupt || openUnverified {
        return Err;
      }
      if |buf| + |data| < SECTOR {
        r := Ok(logicalLength);
        AppendTail(data);
      } else {
        r := WriteSealing(data, o);
      }
    }

    method AppendTail(data: Bytes)
      requires Trusted() && |buf| + |data| < SECTOR
      modifies this`buf, this`logicalLength, this`tail
      ensures Trusted() && Contents() == old(Contents()) + data
      ensures old(Intact()) ==> Intact()
    {
      buf := buf + data;
      tail := buf;
      logicalLength := logicalLength + |data|;
      assert data == [] ==> buf == old(buf);
    }

    /** Protecting the open block, then the one physical write. */
    method PutSectors(ghost image: Bytes, start: nat, more: Bytes, off: nat, o: Outcome) returns (ok: bool)
      requires SECTOR <= start <= off == SECTOR + |image|
      modifies this`file, this`undo, this`undoActive, this`undoStart, this`trail
      ensures old(Holds(file, image)) ==> Holds(file, if ok then image + more else image)
      ensures |old(file)| >= SECTOR ==> |file| >= SECTOR && file[..SECTOR] == old(file)[..SECTOR]
      ensures undoActive ==> undoStart <= off || (old(undoActive) && undoStart == old(undoStart))
      ensures undoActive || (!ok && file == old(file) && !old(undoActive))
      ensures old(Backed()) && old(Holds(file, image)) ==> Backed() && Quietly(old(trail), trail) && (o.Saved() && o.written ==> ok)
    {
      hide Backs, Quietly;
      ok := ProtectPrefix(start, o);
      if ok {
        ghost var before := trail;
        WriteBehind(image, more, off, o.written, o.torn);
        if old(Backed()) && old(Holds(file, image)) {
          QuietTrans(old(trail), before, trail);
        }
        ok := o.written;
      }
    }

    method WriteSealing(data: Bytes, o: Outcome) returns (r: Result<nat>)
      requires Trusted() && |buf| + |data| >= SECTOR
      modifies this
      ensures Trusted() && old(sealed) <= sealed
      ensures r.Ok? ==> r.value == old(logicalLength) && Contents() == old(Contents()) + data
      ensures r.Err? ==> Contents() == old(Contents())
      ensures old(Intact()) ==> Intact()
      ensures old(Sound()) ==> Sound() && Quietly(old(trail), trail) && (o.Saved() && o.written ==> r.Ok?)
      ensures |old(file)| >= SECTOR ==> |file| >= SECTOR && file[..SECTOR] == old(file)[..SECTOR]
    {
      hide Layout, OpenHashes, Overwrite, Resize, Backs, Quietly;
      var offset := logicalLength;
      BlockStartBelow(sealed, logicalLength);
      var writeBuf, hashes', buf', logical', sealed' := SealAll(cr, sealed, buf, hashes, logicalLength, data);
      var ok := PutSectors(Layout(cr, sealed), CalcPhysical(logicalLength / DATA_PER_BLOCK * DATA_PER_BLOCK), writeBuf, CalcPhysical(logicalLength - |buf|), o);
      if !ok {
        return Err;
      }
      ImageLenMonotone(|sealed|, |sealed'|);
      logicalLength, buf, hashes, sealed, tail := logical', buf', hashes', sealed', buf';
      return Ok(offset);
    }

    /* ---- reading ---- */

    lemma TrustedIsFramed()
      requires Trusted()
      ensures Framed()
    {
    }

    /** sectorHashFor: from the block's hash sector once the block is complete, else from memory. */
    method SectorHashFor(i: nat) returns (r: Result<Bytes>)
      requires Framed() && Sealed(sealed, i)
      ensures r.Ok? && NoForgery(cr, file, sealed) ==>
                r.value == cr.hash(Sector(sealed, i)) || (r.value == Zeros(HASH) && hashes != OpenHashes(cr, sealed))
      ensures Holds(file, Layout(cr, sealed)) ==> r.Ok?
    {
      var block, pos := i / PER_BLOCK, i % PER_BLOCK;
      DigestOf(cr, sealed, i);
      if logicalLength - |buf| >= (block + 1) * DATA_PER_BLOCK {
        assert Completed(sealed, block);
        if Holds(file, Layout(cr, sealed)) {
          HeldHashSector(cr, file, sealed, block);
        }
        var rec := DiskRange(file, HashSectorPhys(block), SECTOR);
        if rec.None? || !TagValid(cr, block, rec.value) {
          return Err;
        }
        return Ok(Slot(rec.value[..PER_BLOCK * HASH], pos));
      }
      return Ok(Slot(hashes, pos));
    }

    /** readDataSector: the sealed bytes or an error, whatever the disk now holds. */
    method ReadDataSector(i: nat) returns (r: Result<Bytes>)
      requires Framed() && Sealed(sealed, i)
      ensures r.Ok? ==> |r.value| == SECTOR
      ensures r.Ok? && Honest() ==> r.value == Sector(sealed, i)
      ensures Trusted() && Holds(file, Layout(cr, sealed)) ==> r.Ok?
    {
      if Holds(file, Layout(cr, sealed)) {
        HeldSector(cr, file, sealed, i);
        IntactIsHonest(cr, file, sealed);
      }
      var sector := DiskRange(file, CalcPhysical(SECTOR * i), SECTOR);
      if sector.None? {
        return Err;
      }
      var expected := SectorHashFor(i);
      if expected.Err? || cr.hash(sector.value) != expected.value {
        return Err;
      }
      return Ok(sector.value);
    }

    /** The sector holding offset `cur`: the tail in memory, or a verified one. */
    method SectorAt(cur: nat) returns (r: Result<Bytes>)
      requires Framed() && cur < logicalLength
      ensures r.Ok? ==> cur < cur / SECTOR * SECTOR + |r.value| <= logicalLength
      ensures r.Ok? && Honest() ==> r.value == Contents()[cur / SECTOR * SECTOR..cur / SECTOR * SECTOR + |r.value|]
      ensures Trusted() && Holds(file, Layout(cr, sealed)) ==> r.Ok?
    {
      var start := cur / SECTOR * SECTOR;
      if start >= logicalLength - |buf| {
        assert start == |sealed|;
        return if bufCorrupt then Err else Ok(buf);
      }
      assert start + SECTOR <= |sealed|;
      r := ReadDataSector(cur / SECTOR);
    }

    /** readLocked: for any disk content, a successful read returns exactly the bytes appended there,
        unless the disk exhibits a digest collision or a forged tag; on an intact disk every read
        inside the log succeeds. */
    method Read(offset: int, length: int) returns (r: Result<Bytes>)
      requires Framed()
      ensures r.Ok? ==> 0 <= offset && |r.value| == length && offset + length <= logicalLength
      ensures r.Ok? && Honest() ==> r.value == Contents()[offset..offset + length]
      ensures Trusted() && Holds(file, Layout(cr, sealed)) && InRange(offset, length, logicalLength) ==> r.Ok?
    {
      if !InRange(offset, length, logicalLength) {
        return Err;
      }
      var out: Bytes := [];
      var cur := offset;
      while cur < offset + length
        invariant offset <= cur <= offset + length
        invariant |out| == cur - offset
        invariant Honest() ==> out == Contents()[offset..cur]
      {
        var start := cur / SECTOR * SECTOR;
        var sector := SectorAt(cur);
        if sector.Err? {
          return Err;
        }
        var stop := Min(start + |sector.value|, offset + length);
        if Honest() {
          Extends(Contents(), out, sector.value, offset, cur, start, stop);
        }
        out := out + sector.value[cur - start..stop - start];
        cur := stop;
      }
      return Ok(out);
    }

    lemma IntactHonest()
      requires Intact()
      ensures Framed() && Honest()
    {
      IntactIsHonest(cr, file, sealed);
    }

    /** The part of the range that is already there reads back as `data`. */
    method SameBytes(offset: nat, data: Bytes) returns (same: bool)
      requires Framed() && offset <= logicalLength <= MAX_INT64
      ensures same && Honest() ==> Agrees(Contents(), offset, data)
      ensures Intact() ==> (same <==> Agrees(Contents(), offset, data))
    {
      var overlap := Min(logicalLength - offset, |data|);
      AgreesOverlap(Contents(), offset, data);
      if overlap == 0 {
        return true;
      }
      if Intact() {
        IntactHonest();
      }
      var existing := Read(offset, overlap);
      return existing.Ok? && existing.value == data[..overlap];
    }

    /** EnsureAppend: the range is present exactly once afterwards, however often it is repeated; bytes
        that are already there and differ, and gaps, are refused. */
    method EnsureAppend(offset: int, data: Bytes, o: Outcome) returns (ok: bool)
      requires Framed() && (bufCorrupt || openUnverified || Trusted()) && logicalLength <= MAX_INT64
      modifies this
      ensures offset < 0 || offset > old(logicalLength) ==> !ok
      ensures !ok ==> Contents() == old(Contents())
      ensures ok && old(Honest()) ==>
                && old(Contents()) <= Contents() && |Contents()| == Max(|old(Contents())|, offset + |data|)
                && Contents()[offset..offset + |data|] == data
      ensures old(Intact()) ==> Intact()
      ensures old(Sound()) ==> Sound() && Quietly(old(trail), trail)
      ensures old(Sound()) && o.Saved() && o.written ==> (ok <==> 0 <= offset && Agrees(old(Contents()), offset, data))
    {
      if offset < 0 || offset > logicalLength {
        return false;
      }
      var overlap := Min(logicalLength - offset, |data|);
      var same := SameBytes(offset, data);
      if !same {
        return false;
      }
      ghost var all := Contents();
      if Agrees(all, offset, data) {
        Extended(all, offset, data);
      }
      if overlap == |data| {
        return true;
      }
      var r := Write(data[overlap..], o);
      return r.Ok?;
    }

    /* ---- truncating ---- */

    /** rebuildOpenBlock: geometry only. The tail is unreadable and no sealed sector of the open block
        passes verification until something vouches for them. */
    method RebuildOpenBlock() returns (ok: bool)
      modifies this`buf, this`hashes, this`bufCorrupt, this`openUnverified
      ensures ok == (logicalLength % SECTOR == 0 || CalcPhysical(logicalLength / SECTOR * SECTOR) + logicalLength % SECTOR <= |file|)
      ensures ok ==>
                && |buf| == logicalLength % SECTOR && bufCorrupt == (buf != [])
                && hashes == Zeros(HASH * (logicalLength / SECTOR - logicalLength / SECTOR / PER_BLOCK * PER_BLOCK))
                && openUnverified == (logicalLength % DATA_PER_BLOCK != 0)
    {
      var partial := logicalLength % SECTOR;
      var whole := logicalLength - partial;
      Cut(logicalLength);
      buf := [];
      bufCorrupt := partial > 0;
      if partial > 0 {
        var got := DiskRange(file, CalcPhysical(whole), partial);
        if got.None? {
          return false;
        }
        buf := got.value;
      }
      var blockStart := whole / DATA_PER_BLOCK * DATA_PER_BLOCK;
      hashes := Zeros((whole - blockStart) / SECTOR * HASH);
      openUnverified := blockStart < logicalLength;
      return true;
    }

    /** The fallback for any stream that has this length. */
    method RebuildFor(ghost all: Bytes)
      requires |all| == logicalLength && CalcPhysical(logicalLength) <= |file|
      modifies this`buf, this`hashes, this`bufCorrupt, this`openUnverified, this`sealed, this`tail
      ensures sealed == all[..|all| / SECTOR * SECTOR] && tail == all[|all| / SECTOR * SECTOR..]
      ensures Framed() && (logicalLength % DATA_PER_BLOCK == 0 ==> Trusted())
    {
      Cut(logicalLength);
      sealed := all[..|all| / SECTOR * SECTOR];
      tail := all[|all| / SECTOR * SECTOR..];
      var ok := RebuildOpenBlock();
      ZeroSlots(cr, sealed);
      assert |OpenHashes(cr, sealed)| == |hashes|;
      if logicalLength % DATA_PER_BLOCK == 0 {
        AtBlockEnd(cr, sealed);
        assert buf == tail == [];
      }
    }

    /** The evidence TruncateTo re-establishes from a verified read of the retained open block. */
    method Vouch(ghost all: Bytes, verified: Bytes)
      requires Framed() && Contents() == all && sealed == all[..|all| / SECTOR * SECTOR]
      modifies this`buf, this`hashes, this`bufCorrupt, this`openUnverified
      ensures verified == all[|all| / DATA_PER_BLOCK * DATA_PER_BLOCK..] ==> Trusted()
    {
      if verified == all[|all| / DATA_PER_BLOCK * DATA_PER_BLOCK..] {
        assert all[..|all|] == all && all[|all| / DATA_PER_BLOCK * DATA_PER_BLOCK..|all|] == verified;
        CutHashes(cr, all, |all|, verified);
        assert all[|all| / SECTOR * SECTOR..|all|] == tail;
      }
      hashes := DigestAll(cr, verified);
      buf := verified[|verified| / SECTOR * SECTOR..];
      bufCorrupt, openUnverified := false, false;
    }

    /** The in-memory half of TruncateTo, for the retained stream `all`. */
    method Adopt(ghost all: Bytes, verified: Result<Bytes>, logical: nat)
      requires |all| == logical && |file| == CalcPhysical(logical)
      modifies this`logicalLength, this`buf, this`hashes, this`bufCorrupt, this`openUnverified, this`sealed, this`tail
      ensures logicalLength == logical
      ensures verified.Err? || verified.value == all[logical / DATA_PER_BLOCK * DATA_PER_BLOCK..] ==>
                Framed() && Contents() == all && sealed == all[..logical / SECTOR * SECTOR] && (verified.Ok? ==> Trusted())
    {
      logicalLength := logical;
      RebuildFor(all);
      assert Contents() == all;
      if verified.Ok? {
        Vouch(all, verified.value);
        if Trusted() {
          TrustedIsFramed();
        }
      }
    }

    /** TruncateTo: only ever shrinks. What is kept is the exact prefix; it stays readable when it could be
        verified, and is marked unreadable, not blessed, when it could not. */
    method TruncateTo(logical: int, o: Outcome) returns (ok: bool)
      requires Framed() && logicalLength <= MAX_INT64
      modifies this
      ensures logical < 0 || logical > old(logicalLength) ==> !ok
      ensures ok ==> logicalLength == logical
      ensures ok && old(Honest()) ==> Framed() && Contents() == old(Contents())[..logical]
      ensures ok && old(Intact()) ==> Intact()
      ensures !ok ==> file == old(file) && logicalLength == old(logicalLength) && Framed() && Contents() == old(Contents())
      ensures !ok && old(Intact()) ==> Intact()
      ensures old(Sound()) ==> Sound() && Quietly(old(trail), trail)
      ensures !ok && old(Sound()) ==> !(o.Saved() && o.resized && 0 <= logical <= logicalLength)
    {
      if logical < 0 || logical > logicalLength {
        return false;
      }
      ghost var all := Contents();
      if logical == logicalLength {
        assert all[..logical] == all;
        return true;
      }
      if Intact() {
        IntactHonest();
      }
      var blockStart := logical / DATA_PER_BLOCK * DATA_PER_BLOCK;
      var verified := Read(blockStart, logical - blockStart);
      ok := Shrink(all, logical, verified, o);
    }

    method Shrink(ghost all: Bytes, logical: nat, verified: Result<Bytes>, o: Outcome) returns (ok: bool)
      requires Framed() && all == Contents() && logical < logicalLength
      modifies this
      ensures ok ==> logicalLength == logical
      ensures ok && (verified.Err? || verified.value == all[logical / DATA_PER_BLOCK * DATA_PER_BLOCK..logical]) ==>
                && Framed() && Contents() == all[..logical]
                && (old(Intact()) && verified.Ok? ==> Intact())
      ensures !ok ==> file == old(file) && logicalLength == old(logicalLength) && Framed() && Contents() == all
      ensures !ok && old(Intact()) ==> Intact()
      ensures old(Sound()) ==> Backed() && Quietly(old(trail), trail) && (o.Saved() && o.resized ==> ok)
    {
      hide Layout, OpenHashes, Overwrite, Backs, Quietly;
      var blockStart := logical / DATA_PER_BLOCK * DATA_PER_BLOCK;
      if Intact() {
        CutHolds(cr, file, sealed, tail, logical);
      }
      Cut(logical);
      ok := ProtectPrefix(CalcPhysical(blockStart), o);
      if !ok {
        return;
      }
      ghost var before := trail;
      TruncateFile(CalcPhysical(logical), o.resized);
      if old(Sound()) {
        QuietTrans(old(trail), before, trail);
      }
      if !o.resized {
        return false;
      }
      assert all[..logical][blockStart..] == all[blockStart..logical];
      assert all[..logical][..logical / SECTOR * SECTOR] == all[..logical / SECTOR * SECTOR];
      Adopt(all[..logical], verified, logical);
    }

    /* ---- committing ---- */

    /** A physical write at or above the end of an image leaves the image alone. */
    method PutBehind(ghost image: Bytes, data: Bytes, off: nat, written: bool, torn: Bytes)
      requires Holds(file, image) && off >= SECTOR + |image| && undoActive && undoStart <= off
      modifies this`file, this`trail
      ensures Holds(file, image) && |old(file)| >= SECTOR && |file| >= SECTOR && file[..SECTOR] == old(file)[..SECTOR]
      ensures written ==> file == Overwrite(old(file), off, data)
      ensures old(Backed()) ==> Backed() && Quietly(old(trail), trail)
    {
      hide Backs, Quietly;
      HoldsTorn(file, image, off, torn);
      WritePhysical(data, off, written, torn);
    }

    /** The writes of a commit that has something open; each may fail and leave the image as it was. */
    method PutOpen(ghost image: Bytes, at: nat, ragged: Bytes, trailer: Bytes, o: Outcome) returns (ok: bool)
      requires Holds(file, image) && at == SECTOR + |image| && |ragged| < SECTOR && |trailer| == SECTOR
      requires undoActive && undoStart <= at
      modifies this`file, this`trail
      ensures Holds(file, image) && file[..SECTOR] == old(file)[..SECTOR]
      ensures old(Backed()) ==> Backed() && Quietly(old(trail), trail)
      ensures ok == ((o.written || ragged == []) && o.trailer && o.resized)
      ensures ok ==> |file| == at + 2 * SECTOR && file[at..at + |ragged|] == ragged && file[|file| - SECTOR..] == trailer
    {
      hide Backs, Quietly, Overwrite, Resize, Holds;
      CommitBytes(file, image, ragged, trailer);
      ghost var before := trail;
      if Backed() {
        QuietHere(cr, trail, file, undo, undoActive, undoStart);
      }
      if ragged != [] {
        PutBehind(image, ragged, at, o.written, o.torn);
        if !o.written {
          return false;
        }
      }
      before := trail;
      PutBehind(image, trailer, at + SECTOR, o.trailer, o.torn);
      if old(Backed()) {
        QuietTrans(old(trail), before, trail);
      }
      if !o.trailer {
        return false;
      }
      before := trail;
      TruncateFile(at + 2 * SECTOR, o.resized);
      if old(Backed()) {
        QuietTrans(old(trail), before, trail);
      }
      return o.resized;
    }

    /** Commit: on success the file is exactly the committed form of the log, and only it survives a power loss; on
        failure the log is what it was, its sealed sectors are still on disk, and the last acknowledged log survives,
        or this one. The file has its committed form even when only retiring the journal fails. */
    method Commit(o: Outcome) returns (ok: bool)
      requires bufCorrupt || openUnverified || Intact()
      modifies this`file, this`undo, this`undoActive, this`undoStart, this`trail
      ensures old(bufCorrupt || openUnverified) ==> !ok && file == old(file)
      ensures old(Intact()) ==> Intact() && |old(file)| >= SECTOR && file[..SECTOR] == old(file)[..SECTOR]
      ensures ok ==> Committed(cr, file, sealed, tail) && !undoActive
      ensures old(Sound()) && o.Saved() && o.written && o.trailer && o.resized ==>
                Committed(cr, file, sealed, tail) && !undoActive && (o.Retired() ==> ok)
      ensures old(Sound()) ==>
                && Sound() && Committing(old(trail), trail, Now())
                && Acknowledges(old(trail)[|old(trail)| - 1], trail[|trail| - 1], Now(), ok)
    {
      hide Layout, OpenHashes, Ends, Backs, Quietly, Committing, Acknowledges;
      if bufCorrupt || openUnverified {
        return false;
      }
      if hashes != [] || buf != [] {
        ok := CommitOpen(o);
      } else {
        ok := o.resized;
        CommitClosed(o.resized);
      }
      if old(Sound()) {
        QuietCommit(old(trail), trail, Now());
      }
      if !ok {
        return;
      }
      ghost var before := trail;
      ok := CommitUndo(o);
      if old(Sound()) {
        QuietThen(old(trail), before, trail, Now(), ok);
      }
    }

    method CommitOpen(o: Outcome) returns (ok: bool)
      requires Intact() && HasOpen(cr, sealed, tail)
      modifies this`file, this`undo, this`undoActive, this`undoStart, this`trail
      ensures Intact() && file[..SECTOR] == old(file)[..SECTOR]
      ensures ok ==> Ends(cr, file, sealed, tail) && OnDisk(file, sealed, tail)
      ensures old(Backed()) ==> Backed() && Quietly(old(trail), trail) && (o.Saved() && o.written && o.trailer && o.resized ==> ok)
    {
      hide Layout, OpenHashes, Prefix, Trailer, Overwrite, Resize, Backs, Quietly;
      BlockStartBelow(sealed, |sealed|);
      OpenCount(cr, sealed);
      var start := (logicalLength - |buf|) / DATA_PER_BLOCK * DATA_PER_BLOCK;
      ok := ProtectPrefix(CalcPhysical(start), o);
      if !ok {
        return;
      }
      var at := CalcPhysical(logicalLength - |buf|);
      var trailer := Trailer(cr, (logicalLength - |buf|) / DATA_PER_BLOCK, hashes, buf);
      ghost var before := trail;
      ok := PutOpen(Layout(cr, sealed), at, buf, trailer, o);
      if old(Backed()) {
        QuietTrans(old(trail), before, trail);
      }
    }

    method CommitClosed(resized: bool)
      requires Intact() && !HasOpen(cr, sealed, tail)
      modifies this`file, this`trail
      ensures Intact() && file[..SECTOR] == old(file)[..SECTOR] && (resized ==> |file| == CalcPhysical(|sealed|))
      ensures old(Backed()) ==> Backed() && Quietly(old(trail), trail)
    {
      HoldsResize(file, Layout(cr, sealed), CalcPhysical(|sealed|));
      TruncateFile(CalcPhysical(logicalLength), resized);
    }

    /* ---- reopening ---- */

    /** recoverFromTrailer. A trailer that fails its keyed digest still fixes the length. */
    method RecoverFromTrailer() returns (found: bool)
      requires !bufCorrupt
      modifies this`logicalLength, this`buf, this`hashes, this`bufCorrupt
      ensures found == Recognized(cr, file)
      ensures Located(file).None? ==> logicalLength == old(logicalLength) && !bufCorrupt
      ensures Located(file).Some? ==> Adopted(cr, file, Located(file).value, logicalLength, buf, hashes, bufCorrupt)
    {
      var g := Located(file);
      if g.None? {
        return false;
      }
      buf := Ragged(file, g.value);
      logicalLength := g.value.Length();
      hashes := Digests(file, g.value);
      if !Authentic(cr, file, g.value) {
        if g.value.authenticates {
          bufCorrupt := true;
          hashes := Zeros(|hashes|);
        }
        return g.value.authenticates;
      }
      return true;
    }

    /** reload, over a file that ends in the trailer of the open block of `s` and `t`, or behind its last block. */
    method Reload(ghost s: Bytes, ghost t: Bytes, ghost ends: bool, ghost bounded: bool)
      requires logicalLength == CalcLogical(|file|) && !bufCorrupt && !openUnverified
      requires ends ==> Ends(cr, file, s, t) && TailHonest(cr, file, s, t)
      requires bounded ==> Bounded(cr, file, s, t)
      modifies this`logicalLength, this`buf, this`hashes, this`bufCorrupt, this`openUnverified, this`sealed, this`tail
      ensures sealed == s && tail == t
      ensures ends ==> Framed() && (OnDisk(file, s, t) ==> Trusted())
      ensures bounded ==> if Located(file).None? then logicalLength == |s| && Trusted() else logicalLength < |s|
    {
      hide Layout, OpenHashes, Prefix, Trailer, Located, Fields;
      sealed, tail := s, t;
      var found := RecoverFromTrailer();
      if ends {
        EndsAdopted(cr, file, s, t, logicalLength, buf, hashes, bufCorrupt);
        ZeroSlots(cr, s);
      }
      if bounded {
        AtBoundary(cr, file, s);
      }
      if !found {
        var ok := RebuildOpenBlock();
      }
    }

    /** OpenPlog on an existing file with a readable superblock. `s` and `t` are what was last committed.
        With an intact trailer, whatever else has rotted: the length is right and every later read gives
        the committed bytes or an error. A committed file gives the committed log, except on a block boundary
        where the digest of the last block's first sector begins like a trailer: then the log is too short. */
    constructor Open(cr: Crypto, file: Bytes, ghost s: Bytes, ghost t: Bytes)
      requires |file| >= SECTOR
      ensures this.cr == cr && this.file == file && !undoActive && trail == [Moment(J.Opened(file), Log(s, t), {})]
      ensures Ends(cr, file, s, t) && TailHonest(cr, file, s, t) ==> Framed() && Contents() == s + t
      ensures Committed(cr, file, s, t) ==> Backed()
      ensures Committed(cr, file, s, t) ==>
                if Confusable(cr, s, t) then logicalLength < |s + t| else Intact() && Contents() == s + t
    {
      hide Backs, Layout, Located, OpenHashes;
      this.cr, this.file := cr, file;
      logicalLength, buf, hashes := CalcLogical(|file|), [], [];
      bufCorrupt, openUnverified := false, false;
      undo, undoActive, undoStart, trail := J.Absent, false, 0, [Moment(J.Opened(file), Log(s, t), {})];
      new;
      Reload(s, t, Ends(cr, file, s, t) && TailHonest(cr, file, s, t), Bounded(cr, file, s, t));
      if Committed(cr, file, s, t) {
        OpenBacked(cr, file, Log(s, t));
        if !HasOpen(cr, s, t) {
          BoundaryParses(cr, file, s, t);
        }
      }
    }
  }

  /** OpenPlog on a new file, once its superblock is durable: an empty log, from which every session starts. */
  method Create(cr: Crypto, superblock: Bytes) returns (p: Plog)
    requires |superblock| == SECTOR
    ensures fresh(p) && p.cr == cr && p.file == superblock && p.Sound() && Shows(p, Flat([], [], {}))
  {
    assert Layout(cr, []) == [];
    p := new Plog.Open(cr, superblock, [], []);
  }

  /** A successful commit followed by a restart gives the same log, or a shorter one when it is confusable. */
  method CommitAndReopen(p: Plog, o: Outcome) returns (ok: bool, q: Plog)
    requires p.Sound()
    modifies p
    ensures p.Sound() && p.Contents() == old(p.Contents())
    ensures o.Saved() && o.written && o.trailer && o.resized && o.Retired() ==> ok
    ensures p.sealed == old(p.sealed) && p.tail == old(p.tail)
    ensures ok ==> if Confusable(p.cr, p.sealed, p.tail) then q.logicalLength < |p.Contents()|
                   else q.Sound() && q.Contents() == old(p.Contents())
  {
    hide Backs, Confusable, Committed, Layout;
    ok := p.Commit(o);
    q := new Plog.Open(p.cr, p.file, p.sealed, p.tail);
  }

  /** A run that shortens a committed log: one block, written and committed without a failure, under a digest that
      begins like a trailer. */
  method CommittedBlockComesBackShort(superblock: Bytes, o: Outcome) returns (p: Plog, q: Plog)
    requires |superblock| == SECTOR && o.Saved() && o.written && o.trailer && o.resized && o.Retired()
    ensures p.Sound() && p.Contents() == Zeros(DATA_PER_BLOCK) && Committed(p.cr, p.file, p.sealed, p.tail)
    ensures q.cr == p.cr && q.file == p.file && q.logicalLength < |p.Contents()|
  {
    hide Backs, Quietly, Acknowledges, Committing, Layout, Located, Confusable, OpenHashes;
    var digest := MAGIC + [254, 0, 0, 0, 0, 0, 0, 0];
    var cr := Crypto(_ => digest, (_, _) => digest, (_, _, _) => digest);
    p := Create(cr, superblock);
    var _ := p.Write(Zeros(DATA_PER_BLOCK), o);
    var _ := p.Commit(o);
    BlockIsConfusable(cr, p.sealed, p.tail, digest);
    q := new Plog.Open(p.cr, p.file, p.sealed, p.tail);
  }

  lemma BlockIsSealed(cr: Crypto, sealed: Bytes, tail: Bytes)
    requires Whole(sealed) && |tail| < SECTOR && |sealed + tail| == DATA_PER_BLOCK
    ensures tail == [] && |sealed| == DATA_PER_BLOCK && OpenHashes(cr, sealed) == []
  {
  }

  lemma BlockIsConfusable(cr: Crypto, sealed: Bytes, tail: Bytes, digest: Digest)
    requires Whole(sealed) && |tail| < SECTOR && |sealed + tail| == DATA_PER_BLOCK
    requires digest == MAGIC + [254, 0, 0, 0, 0, 0, 0, 0] && forall b :: cr.hash(b) == digest
    ensures Confusable(cr, sealed, tail)
  {
    hide OpenHashes;
    BlockIsSealed(cr, sealed, tail);
    assert digest[..8] == MAGIC && digest[8..10] == [254, 0] && digest[10..12] == [0, 0];
  }

  /* ---- any sequence of operations ---- */

  datatype LogOp = Append(data: Bytes) | Place(offset: int, data: Bytes) | CutTo(length: int) | Sync

  /** A plain byte sequence, what of it was last acknowledged, and what was handed to a commit since that reported an error. */
  datatype Flat = Flat(now: Bytes, kept: Bytes, begun: set<Bytes>)

  predicate Applies(f: Bytes, op: LogOp) {
    match op
    case Append(_) => true
    case Place(offset, data) => 0 <= offset && Agrees(f, offset, data)
    case CutTo(n) => 0 <= n <= |f|
    case Sync => true
  }

  /** The same operations on a plain byte sequence. */
  function FlatStep(f: Bytes, op: LogOp): Bytes
    requires Applies(f, op)
  {
    match op
    case Append(data) => f + data
    case Place(offset, data) => f + data[Min(|f| - offset, |data|)..]
    case CutTo(n) => f[..n]
    case Sync => f
  }

  /** One operation that took effect or reported an error. */
  predicate Steps(f: Flat, op: LogOp, took: bool, g: Flat) {
    if op.Sync? then g == if took then Flat(f.now, f.now, {}) else f.(begun := f.begun + {f.now})
    else if took then Applies(f.now, op) && g == f.(now := FlatStep(f.now, op))
    else g == f
  }

  /** The stream of every log that may survive is one of the given ones. */
  predicate Among(m: Moment, streams: set<Bytes>) {
    forall log :: log in m.Survivors() ==> log.Stream() in streams
  }

  /** What may survive a power loss while `op` is under way. */
  function Surviving(f: Flat, op: LogOp): set<Bytes> {
    f.begun + {f.kept} + if op.Sync? then {f.now} else {}
  }

  predicate Matches(m: Moment, f: Flat) {
    m.kept.Stream() == f.kept && forall log :: log in m.begun ==> log.Stream() in f.begun
  }

  ghost predicate Shows(p: Plog, f: Flat)
    reads p
  {
    p.trail != [] && p.Contents() == f.now && Matches(p.trail[|p.trail| - 1], f)
  }

  lemma QuietAmong(before: seq<Moment>, after: seq<Moment>, streams: set<Bytes>)
    requires Quietly(before, after) && Among(before[|before| - 1], streams)
    ensures before <= after && forall k :: |before| <= k < |after| ==> Among(after[k], streams)
    ensures after[|after| - 1].kept == before[|before| - 1].kept && after[|after| - 1].begun == before[|before| - 1].begun
  {
  }

  lemma CommitAmong(before: seq<Moment>, after: seq<Moment>, now: Log, ok: bool, f: Flat, g: Flat)
    requires Committing(before, after, now) && Acknowledges(before[|before| - 1], after[|after| - 1], now, ok)
    requires Matches(before[|before| - 1], f) && now.Stream() == f.now && Steps(f, Sync, ok, g)
    ensures Matches(after[|after| - 1], g)
    ensures before <= after && forall k :: |before| <= k < |after| ==> Among(after[k], Surviving(f, Sync))
  {
  }

  /** A change of the log is that change of the byte sequence, or nothing, and no other log comes to survive. */
  method Change(p: Plog, op: LogOp, o: Outcome) returns (took: bool)
    requires p.Sound() && p.logicalLength <= MAX_INT64 && !op.Sync?
    modifies p
    ensures p.Sound() && Quietly(old(p.trail), p.trail)
    ensures if took then Applies(old(p.Contents()), op) && p.Contents() == FlatStep(old(p.Contents()), op) else p.Contents() == old(p.Contents())
    ensures o.Saved() && o.written && o.resized ==> (took <==> Applies(old(p.Contents()), op))
  {
    hide Backs, Quietly, Layout, OpenHashes, Holds;
    ghost var f := p.Contents();
    p.IntactHonest();
    match op {
      case Append(data) =>
        var r := p.Write(data, o);
        took := r.Ok?;
      case Place(offset, data) =>
        took := p.EnsureAppend(offset, data, o);
        if took {
          PlacedOnce(f, offset, data, p.Contents());
        }
      case CutTo(n) =>
        took := p.TruncateTo(n, o);
    }
  }

  /** One operation on the log is that operation on the byte sequence, or nothing; with an operating system that answers
      it takes effect exactly when it applies. Power loss at any moment of it brings back the stream last acknowledged,
      one handed to a commit since, or, while it is a commit, the present one. */
  method Apply(p: Plog, op: LogOp, o: Outcome, ghost f: Flat) returns (took: bool, ghost g: Flat)
    requires p.Sound() && Shows(p, f) && p.logicalLength <= MAX_INT64
    modifies p
    ensures p.Sound() && Shows(p, g) && Steps(f, op, took, g)
    ensures old(p.trail) <= p.trail && forall k :: |old(p.trail)| <= k < |p.trail| ==> Among(p.trail[k], Surviving(f, op))
    ensures o.Saved() && o.written && o.trailer && o.resized && o.Retired() ==> (took <==> Applies(f.now, op))
  {
    hide Backs, Quietly, Committing, Acknowledges, Layout, OpenHashes, Committed;
    if op.Sync? {
      took := p.Commit(o);
      g := if took then Flat(f.now, f.now, {}) else f.(begun := f.begun + {f.now});
      CommitAmong(old(p.trail), p.trail, p.Now(), took, f, g);
    } else {
      took := Change(p, op, o);
      g := if took then f.(now := FlatStep(f.now, op)) else f;
      QuietAmong(old(p.trail), p.trail, Surviving(f, op));
    }
  }

  lemma PlacedOnce(f: Bytes, offset: nat, data: Bytes, next: Bytes)
    requires f <= next && |next| == Max(|f|, offset + |data|) && offset + |data| <= |next| && next[offset..offset + |data|] == data
    requires offset <= |f|
    ensures Agrees(f, offset, data) && next == f + data[Min(|f| - offset, |data|)..]
  {
  }

  /** What may survive between two operations. */
  function Kept(f: Flat): set<Bytes> {
    f.begun + {f.kept}
  }

  predicate AllAmong(trail: seq<Moment>, from: nat, to: nat, streams: set<Bytes>)
    requires to <= |trail|
  {
    forall k :: from <= k < to ==> Among(trail[k], streams)
  }

  /** A session on its trail: operation `i` takes the byte sequence from `flats[i]` to `flats[i + 1]` and makes the calls
      that lead to the moments `marks[i]` to `marks[i + 1] - 1`. */
  datatype Record = Record(ops: seq<LogOp>, took: seq<bool>, flats: seq<Flat>, marks: seq<nat>) {
    predicate Shaped() {
      |took| <= |ops| && |flats| == |took| + 1 == |marks|
    }

    /** At the moment before operation `i`, or at the end. */
    predicate Stands(trail: seq<Moment>, i: nat)
      requires Shaped() && i <= |took|
    {
      1 <= marks[i] <= |trail| && Matches(trail[marks[i] - 1], flats[i])
    }

    /** Operation `i` from its first moment to its last. */
    predicate Runs(trail: seq<Moment>, i: nat)
      requires Shaped() && i < |took|
    {
      && Steps(flats[i], ops[i], took[i], flats[i + 1])
      && marks[i] <= marks[i + 1] <= |trail| && AllAmong(trail, marks[i], marks[i + 1], Surviving(flats[i], ops[i]))
    }

    predicate Tells(trail: seq<Moment>) {
      && Shaped() && marks[|took|] == |trail|
      && (forall i :: 0 <= i <= |took| ==> Stands(trail, i))
      && (forall i :: 0 <= i < |took| ==> Runs(trail, i))
    }

    /** What operation `i` lets survive at moment `k`: what it found before its first call, what it leaves after its last. */
    function Outlasting(i: nat, k: nat): set<Bytes>
      requires Shaped() && i < |took|
    {
      if k + 1 == marks[i] then Kept(flats[i])
      else if k + 1 == marks[i + 1] then Kept(flats[i + 1])
      else Surviving(flats[i], ops[i])
    }
  }

  lemma StandsAmong(m: Moment, f: Flat)
    requires Matches(m, f)
    ensures Among(m, Kept(f))
  {
  }

  lemma RecordAmong(r: Record, trail: seq<Moment>, i: nat, k: nat)
    requires r.Tells(trail) && i < |r.took| && r.marks[i] <= k + 1 && k < r.marks[i + 1]
    ensures k < |trail| && Among(trail[k], r.Outlasting(i, k))
  {
    hide Matches, Steps, Among;
    assert r.Stands(trail, i) && r.Stands(trail, i + 1) && r.Runs(trail, i);
    if k + 1 == r.marks[i] {
      StandsAmong(trail[k], r.flats[i]);
    } else if k + 1 == r.marks[i + 1] {
      StandsAmong(trail[k], r.flats[i + 1]);
    }
  }

  /** Every moment of the session belongs to an operation or lies between two. */
  lemma {:induction false} RunningAt(r: Record, trail: seq<Moment>, from: nat, k: nat) returns (i: nat)
    requires r.Tells(trail) && from < |r.took| && r.marks[from] <= k < |trail|
    ensures from <= i < |r.took| && r.marks[i] <= k < r.marks[i + 1]
    decreases |r.took| - from
  {
    assert r.Runs(trail, from);
    if k < r.marks[from + 1] {
      i := from;
    } else {
      i := RunningAt(r, trail, from + 1, k);
    }
  }

  /** No commit was begun between operation `s` and moment `k`. */
  predicate NoSyncUntil(r: Record, s: nat, k: nat)
    requires r.Shaped()
  {
    forall j :: s < j < |r.took| && r.ops[j].Sync? ==> k < r.marks[j]
  }

  lemma {:induction false} KeptSince(r: Record, trail: seq<Moment>, s: nat, k: nat, i: nat)
    requires r.Tells(trail) && s < i <= |r.took| && r.took[s] && r.ops[s].Sync? && NoSyncUntil(r, s, k)
    requires i > s + 1 ==> r.marks[i - 1] <= k
    ensures r.flats[i].kept == r.flats[s].now && r.flats[i].begun == {}
  {
    assert r.Runs(trail, i - 1);
    if i > s + 1 {
      assert i - 2 >= 0 && r.Runs(trail, i - 2);
      KeptSince(r, trail, s, k, i - 1);
    }
  }

  /** From the last moment of a commit that was acknowledged until another commit is begun, its stream alone survives. */
  lemma AcknowledgedAlone(r: Record, trail: seq<Moment>, s: nat, k: nat)
    requires r.Tells(trail) && s < |r.took| && r.took[s] && r.ops[s].Sync? && r.marks[s + 1] <= k + 1 <= |trail| && NoSyncUntil(r, s, k)
    ensures Among(trail[k], {r.flats[s].now})
  {
    hide Steps, Among, Matches;
    if k + 1 == r.marks[s + 1] {
      assert r.Stands(trail, s + 1);
      StandsAmong(trail[k], r.flats[s + 1]);
      KeptSince(r, trail, s, k, s + 1);
      assert Kept(r.flats[s + 1]) == {r.flats[s].now};
    } else {
      assert s + 1 < |r.took|;
      var i := RunningAt(r, trail, s + 1, k);
      assert r.Runs(trail, i) && r.Runs(trail, i - 1);
      KeptSince(r, trail, s, k, i);
      assert Surviving(r.flats[i], r.ops[i]) == {r.flats[s].now};
    }
  }

  /** A whole session with its own outcome for every operation, stopped early only if the log outgrows 63 bits. The image
      stays intact, and `r` tells what every operation did and which streams a power loss at each of its moments leaves. */
  method Session(p: Plog, ops: seq<LogOp>, os: nat -> Outcome, ghost f: Flat) returns (took: seq<bool>, ghost r: Record)
    requires p.Sound() && Shows(p, f)
    modifies p
    ensures p.Sound() && r.Tells(p.trail) && r.ops == ops && r.took == took && r.flats[0] == f && Shows(p, r.flats[|took|])
    ensures old(p.trail) <= p.trail && r.marks[0] == |old(p.trail)|
    ensures |took| < |ops| ==> p.logicalLength > MAX_INT64
  {
    hide Backs, Steps, Matches, Among, Surviving;
    took, r := [], Record(ops, [], [f], [|p.trail|]);
    while |took| < |ops|
      invariant p.Sound() && |took| <= |ops| && r.Tells(p.trail) && r.ops == ops && r.took == took && r.flats[0] == f && Shows(p, r.flats[|took|])
      invariant old(p.trail) <= p.trail && r.marks[0] == |old(p.trail)|
    {
      if p.logicalLength > MAX_INT64 {
        return;
      }
      ghost var before := p.trail;
      var i := |took|;
      var done;
      ghost var g;
      done, g := Apply(p, ops[i], os(i), r.flats[i]);
      TellsMore(r, before, p.trail, done, g);
      took := took + [done];
      r := Record(ops, took, r.flats + [g], r.marks + [|p.trail|]);
    }
  }

  lemma TellsMore(r: Record, before: seq<Moment>, after: seq<Moment>, done: bool, g: Flat)
    requires r.Tells(before) && |r.took| < |r.ops| && before <= after && before != []
    requires Steps(r.flats[|r.took|], r.ops[|r.took|], done, g) && Matches(after[|after| - 1], g)
    requires AllAmong(after, |before|, |after|, Surviving(r.flats[|r.took|], r.ops[|r.took|]))
    ensures Record(r.ops, r.took + [done], r.flats + [g], r.marks + [|after|]).Tells(after)
  {
    hide Steps, Matches, Among, Surviving;
    var n, next := |r.took|, Record(r.ops, r.took + [done], r.flats + [g], r.marks + [|after|]);
    forall i | 0 <= i <= n + 1 ensures next.Stands(after, i) {
      assert i <= n ==> r.Stands(before, i);
    }
    forall i | 0 <= i < n + 1 ensures next.Runs(after, i) {
      assert i < n ==> r.Runs(before, i);
    }
  }
}
