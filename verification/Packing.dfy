/**
 Packing staged records into whole stripe rows (server/promotion.go). `sizes` are the record lengths,
 header included.
 */
module Packing {
  import opened Arith
  import opened Bytes

  /** Bytes of the first `k` records. */
  function Cum(sizes: seq<nat>, k: nat): nat
    requires k <= |sizes|
  {
    if k == 0 then 0 else Cum(sizes, k - 1) + sizes[k - 1]
  }

  function Pad(total: nat, width: nat): nat
    requires width > 0
  {
    (width - total % width) % width
  }

  /** Padding reaches the next row boundary and is less than a row. */
  lemma PadMeaning(total: nat, width: nat)
    requires width > 0
    ensures Pad(total, width) < width && (total + Pad(total, width)) % width == 0
  {
    var r := total % width;
    var q := total / width;
    if r == 0 {
      MultipleMod(q, width);
      assert Pad(total, width) == 0 by { Once(width); }
    } else {
      Below(width - r, width);
      MultipleMod(q + 1, width);
      assert total + (width - r) == q * width + width;
      assert (q + 1) * width == q * width + width;
    }
  }

  lemma Once(width: nat)
    requires width > 0
    ensures width % width == 0
  {
  }

  lemma Below(a: nat, width: nat)
    requires a < width
    ensures a % width == a
  {
  }

  /** The prefix fills at least one row. */
  predicate Fills(sizes: seq<nat>, k: nat, width: nat) {
    k <= |sizes| && Cum(sizes, k) >= width
  }

  /** promotablePrefix: among the prefixes that fill a row, the longest of those with least padding; nothing exactly
      when none fills a row. */
  method PromotablePrefix(sizes: seq<nat>, width: int) returns (count: nat, padded: nat)
    ensures count <= |sizes|
    ensures count == 0 <==> width <= 0 || forall k: nat :: 1 <= k <= |sizes| ==> !Fills(sizes, k, width)
    ensures count == 0 ==> padded == 0
    ensures count > 0 ==>
              && Fills(sizes, count, width) && padded == Cum(sizes, count) + Pad(Cum(sizes, count), width)
              && (forall k: nat :: 1 <= k <= |sizes| && Fills(sizes, k, width) ==>
                                     Pad(Cum(sizes, count), width) <= Pad(Cum(sizes, k), width))
              && (forall k: nat :: count < k <= |sizes| && Fills(sizes, k, width) ==>
                                     Pad(Cum(sizes, count), width) < Pad(Cum(sizes, k), width))
  {
    hide Pad;
    count, padded := 0, 0;
    if width <= 0 {
      return;
    }
    var cum, best, i := 0, -1, 0;
    while i < |sizes|
      invariant 0 <= i <= |sizes| && cum == Cum(sizes, i) && count <= i
      invariant best == -1 <==> count == 0
      invariant best == -1 ==> padded == 0 && forall k: nat :: 1 <= k <= i ==> !Fills(sizes, k, width)
      invariant best != -1 ==> Fills(sizes, count, width) && best == Pad(Cum(sizes, count), width) && padded == Cum(sizes, count) + best
      invariant best != -1 ==> forall k: nat :: 1 <= k <= i && Fills(sizes, k, width) ==> best <= Pad(Cum(sizes, k), width)
      invariant best != -1 ==> forall k: nat :: count < k <= i && Fills(sizes, k, width) ==> best < Pad(Cum(sizes, k), width)
    {
      cum := cum + sizes[i];
      i := i + 1;
      if cum >= width {
        assert Fills(sizes, i, width);
        var pad := Pad(cum, width);
        if best == -1 || pad <= best {
          best, count, padded := pad, i, cum + pad;
        }
      }
    }
  }

  /** What that means for the rows: whole ones, with less than one row of padding. */
  lemma PromotedRows(sizes: seq<nat>, width: nat, count: nat)
    requires width > 0 && count <= |sizes|
    ensures var padded := Cum(sizes, count) + Pad(Cum(sizes, count), width);
            padded % width == 0 && padded - Cum(sizes, count) < width
  {
    PadMeaning(Cum(sizes, count), width);
  }

  /** paddedRowLen: the least number of whole rows that holds all records. */
  method PaddedRowLen(sizes: seq<nat>, width: int) returns (padded: nat)
    ensures width <= 0 ==> padded == 0
    ensures width > 0 ==> padded % width == 0 && padded >= Cum(sizes, |sizes|) && padded - Cum(sizes, |sizes|) < width
  {
    var total, i := 0, 0;
    while i < |sizes|
      invariant 0 <= i <= |sizes| && total == Cum(sizes, i)
    {
      total := total + sizes[i];
      i := i + 1;
    }
    if total == 0 || width <= 0 {
      assert width > 0 ==> 0 % width == 0 by {
        if width > 0 {
          MultipleMod(0, width);
        }
      }
      return 0;
    }
    RoundUp(total, width);
    return (total + width - 1) / width * width;
  }

  lemma RoundUp(total: nat, width: nat)
    requires width > 0 && total > 0
    ensures var r := (total + width - 1) / width * width; r % width == 0 && total <= r < total + width
  {
    var q := (total + width - 1) / width;
    MultipleMod(q, width);
    assert total + width - 1 == q * width + (total + width - 1) % width;
  }

  /* ---- the packed rows ---- */

  function Sizes(records: seq<Bytes>): seq<nat> {
    seq(|records|, i requires 0 <= i < |records| => |records[i]|)
  }

  /** writeChunksAsRows up to the append: records one after the other from the start, then zeros to the row boundary. */
  method PackRows(records: seq<Bytes>, padded: nat) returns (buf: Bytes, offsets: seq<nat>)
    requires Cum(Sizes(records), |records|) <= padded
    ensures |buf| == padded && |offsets| == |records|
    ensures forall i :: 0 <= i < |records| ==> offsets[i] == Cum(Sizes(records), i)
    ensures forall i :: 0 <= i < |records| ==> RecordAt(buf, offsets[i], records[i])
    ensures forall x :: Cum(Sizes(records), |records|) <= x < padded ==> buf[x] == 0
  {
    hide RecordAt, Cum;
    buf, offsets := [], [];
    var i := 0;
    ghost var sizes := Sizes(records);
    CumNone(sizes);
    while i < |records|
      invariant 0 <= i <= |records| && |offsets| == i && |buf| == Cum(sizes, i)
      invariant forall j :: 0 <= j < i ==> offsets[j] == Cum(sizes, j)
      invariant forall j :: 0 <= j < i ==> RecordAt(buf, offsets[j], records[j])
    {
      forall j | 0 <= j < i ensures RecordAt(buf + records[i], offsets[j], records[j]) {
        RecordStays(buf, records[i], offsets[j], records[j]);
      }
      RecordNew(buf, records[i]);
      CumNext(sizes, i);
      offsets := offsets + [|buf|];
      buf := buf + records[i];
      i := i + 1;
    }
    forall j | 0 <= j < i ensures RecordAt(buf + Zeros(padded - |buf|), offsets[j], records[j]) {
      RecordStays(buf, Zeros(padded - |buf|), offsets[j], records[j]);
    }
    buf := buf + Zeros(padded - |buf|);
  }

  predicate RecordAt(buf: Bytes, at: nat, record: Bytes) {
    at + |record| <= |buf| && buf[at..at + |record|] == record
  }

  lemma CumNone(sizes: seq<nat>)
    ensures Cum(sizes, 0) == 0
  {
  }

  lemma CumNext(sizes: seq<nat>, i: nat)
    requires i < |sizes|
    ensures Cum(sizes, i + 1) == Cum(sizes, i) + sizes[i]
  {
  }

  lemma RecordNew(buf: Bytes, record: Bytes)
    ensures RecordAt(buf + record, |buf|, record)
  {
  }

  lemma RecordStays(buf: Bytes, more: Bytes, at: nat, record: Bytes)
    requires RecordAt(buf, at, record)
    ensures RecordAt(buf + more, at, record)
  {
  }

  lemma {:induction false} CumMonotone(sizes: seq<nat>, i: nat, j: nat)
    requires i <= j <= |sizes|
    ensures Cum(sizes, i) <= Cum(sizes, j)
    decreases j - i
  {
    if i < j {
      CumMonotone(sizes, i, j - 1);
    }
  }

  /** The places handed out are disjoint, consecutive, and inside the rows. */
  lemma PlacesTile(sizes: seq<nat>, i: nat, j: nat)
    requires i < j < |sizes|
    ensures Cum(sizes, i) + sizes[i] == Cum(sizes, i + 1) <= Cum(sizes, j) && Cum(sizes, j) + sizes[j] <= Cum(sizes, |sizes|)
  {
    CumMonotone(sizes, i + 1, j);
    CumMonotone(sizes, j + 1, |sizes|);
  }
}
