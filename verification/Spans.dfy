/**
 The span lists of writeLocked (server/writecache.go): coalescing the spans a write touches, sorting the list, and
 exactly when the sorted list shows the file with the write in it.
 */
module Spans {
  import opened Arith
  import opened Bytes
  import opened Results
  import opened Overlay

  predicate Below(spans: seq<Span>, limit: nat) {
    forall k :: 0 <= k < |spans| ==> spans[k].End() <= limit
  }

  predicate From(spans: seq<Span>, floor: nat) {
    forall k :: 0 <= k < |spans| ==> spans[k].start >= floor
  }

  predicate Filled(spans: seq<Span>) {
    forall k :: 0 <= k < |spans| ==> spans[k].data != []
  }

  predicate InOrder(spans: seq<Span>, j: int, k: int)
    requires 0 <= j < |spans| && 0 <= k < |spans|
  {
    spans[j].start <= spans[k].start
  }

  predicate ByStart(spans: seq<Span>) {
    forall j, k :: 0 <= j < k < |spans| ==> InOrder(spans, j, k)
  }

  lemma WellFormedByStart(spans: seq<Span>)
    requires WellFormed(spans)
    ensures ByStart(spans) && Filled(spans)
  {
    forall j, k | 0 <= j < k < |spans| ensures InOrder(spans, j, k) {
      assert Apart(spans, j, k);
    }
  }

  /* ---- the spans a write touches ---- */

  /** Overlapping or adjacent. */
  predicate Touches(s: Span, off: nat, end: nat) {
    off <= s.End() && s.start <= end
  }

  function Keep(spans: seq<Span>, off: nat, end: nat): seq<Span> {
    if spans == [] then []
    else
      var rest, last := Keep(spans[..|spans| - 1], off, end), spans[|spans| - 1];
      if Touches(last, off, end) then rest else rest + [last]
  }

  function Touching(spans: seq<Span>, off: nat, end: nat): seq<Span> {
    if spans == [] then []
    else
      var rest, last := Touching(spans[..|spans| - 1], off, end), spans[|spans| - 1];
      if Touches(last, off, end) then rest + [last] else rest
  }

  lemma {:induction false} Sides(spans: seq<Span>, off: nat, end: nat, s: Span)
    ensures s in Keep(spans, off, end) <==> s in spans && !Touches(s, off, end)
    ensures s in Touching(spans, off, end) <==> s in spans && Touches(s, off, end)
  {
    if spans != [] {
      assert spans == spans[..|spans| - 1] + [spans[|spans| - 1]];
      Sides(spans[..|spans| - 1], off, end, s);
    }
  }

  function Low(list: seq<Span>, off: nat): nat {
    if list == [] then off else Min(Low(list[..|list| - 1], off), list[|list| - 1].start)
  }

  function High(list: seq<Span>, end: nat): nat {
    if list == [] then end else Max(High(list[..|list| - 1], end), list[|list| - 1].End())
  }

  lemma {:induction false} LowIs(list: seq<Span>, off: nat)
    ensures Low(list, off) <= off && forall s :: s in list ==> Low(list, off) <= s.start
    ensures Low(list, off) == off || exists s :: s in list && Low(list, off) == s.start
  {
    if list != [] {
      var rest, last := list[..|list| - 1], list[|list| - 1];
      assert list == rest + [last];
      LowIs(rest, off);
      if Low(list, off) != off {
        if Low(list, off) == last.start {
          assert last in list;
        } else {
          var s :| s in rest && Low(rest, off) == s.start;
          assert s in list;
        }
      }
    }
  }

  lemma {:induction false} HighIs(list: seq<Span>, end: nat)
    ensures High(list, end) >= end && forall s :: s in list ==> High(list, end) >= s.End()
    ensures High(list, end) == end || exists s :: s in list && High(list, end) == s.End()
  {
    if list != [] {
      var rest, last := list[..|list| - 1], list[|list| - 1];
      assert list == rest + [last];
      HighIs(rest, end);
      if High(list, end) != end {
        if High(list, end) == last.End() {
          assert last in list;
        } else {
          var s :| s in rest && High(rest, end) == s.End();
          assert s in list;
        }
      }
    }
  }

  /** What a byte of the merged span is: new, or the last touched span's. */
  function MergedByte(touching: seq<Span>, off: nat, data: Bytes, i: nat): Byte {
    if off <= i < off + |data| then data[i - off]
    else
      match Top(touching, i)
      case Some(b) => b
      case None => 0
  }

  function MergedData(touching: seq<Span>, off: nat, data: Bytes, low: nat, high: nat): (r: Bytes)
    requires low <= high
    ensures |r| == high - low && forall k :: 0 <= k < |r| ==> r[k] == MergedByte(touching, off, data, low + k)
  {
    seq<Byte>(high - low, (k: nat) => MergedByte(touching, off, data, low + k))
  }

  /** The one span the touched spans and the write become. */
  function Merged(spans: seq<Span>, off: nat, data: Bytes): (s: Span)
    ensures s.start <= off && off + |data| <= s.End()
  {
    var end := off + |data|;
    var touching := Touching(spans, off, end);
    LowIs(touching, off);
    HighIs(touching, end);
    var low, high := Low(touching, off), High(touching, end);
    Span(low, MergedData(touching, off, data, low, high))
  }

  /** The merged span covers the write and the touched spans and nothing else: there is no gap to zero-fill. */
  lemma MergedCovers(spans: seq<Span>, off: nat, data: Bytes, i: nat)
    requires data != [] && !(off <= i < off + |data|)
    ensures var m, touching := Merged(spans, off, data), Touching(spans, off, off + |data|);
            && (m.Covers(i) <==> Top(touching, i).Some?)
            && (m.Covers(i) ==> Top(touching, i) == Some(ByteOf(m, i)))
  {
    var end := off + |data|;
    var m, touching := Merged(spans, off, data), Touching(spans, off, end);
    LowIs(touching, off);
    HighIs(touching, end);
    if m.Covers(i) {
      assert ByteOf(m, i) == MergedByte(touching, off, data, m.start + (i - m.start));
    }
    if Top(touching, i).Some? {
      var k := TopWitness(touching, i);
      assert touching[k] in touching;
    } else if m.Covers(i) {
      var s :| s in touching && (if i < off then s.start == m.start else s.End() == m.End());
      Sides(spans, off, end, s);
      var k :| 0 <= k < |touching| && touching[k] == s;
      assert touching[k].Covers(i);
      TopNone(touching, i, k);
    }
  }

  lemma {:induction false} TopNone(spans: seq<Span>, i: nat, k: nat)
    requires Top(spans, i).None? && k < |spans|
    ensures !spans[k].Covers(i)
  {
    if k < |spans| - 1 {
      TopNone(spans[..|spans| - 1], i, k);
    }
  }

  /** The list before it is sorted. */
  function Rebuilt(spans: seq<Span>, off: nat, data: Bytes): seq<Span> {
    Keep(spans, off, off + |data|) + [Merged(spans, off, data)]
  }

  lemma RebuiltHas(spans: seq<Span>, off: nat, data: Bytes, s: Span)
    ensures s in Rebuilt(spans, off, data) <==>
              s == Merged(spans, off, data) || (s in spans && !Touches(s, off, off + |data|))
  {
    Sides(spans, off, off + |data|, s);
  }

  /* ---- sorting ---- */

  /** sort.Slice by start: in order, and in no particular order where starts are equal. */
  predicate IsSort(list: seq<Span>, sorted: seq<Span>) {
    ByStart(sorted) && multiset(sorted) == multiset(list)
  }

  lemma SortHas(list: seq<Span>, sorted: seq<Span>, s: Span)
    requires multiset(sorted) == multiset(list)
    ensures s in sorted <==> s in list
  {
    assert s in sorted <==> s in multiset(sorted);
    assert s in list <==> s in multiset(list);
  }

  /** Covers the byte, and no span that covers it starts higher. */
  ghost predicate Uppermost(list: seq<Span>, s: Span, i: nat) {
    s in list && s.Covers(i) && forall t :: t in list && t.Covers(i) ==> t.start <= s.start
  }

  /** A sorted list shows an uppermost span. */
  lemma SortedTop(list: seq<Span>, sorted: seq<Span>, i: nat) returns (s: Span)
    requires IsSort(list, sorted) && Top(sorted, i).Some?
    ensures Uppermost(list, s, i) && Top(sorted, i) == Some(ByteOf(s, i))
  {
    var k := TopWitness(sorted, i);
    s := sorted[k];
    SortHas(list, sorted, s);
    forall t | t in list && t.Covers(i) ensures t.start <= s.start {
      SortHas(list, sorted, t);
      var j :| 0 <= j < |sorted| && sorted[j] == t;
      assert j < k ==> InOrder(sorted, j, k);
    }
  }

  function Insert(sorted: seq<Span>, s: Span, p: nat): seq<Span>
    requires p <= |sorted|
  {
    sorted[..p] + [s] + sorted[p..]
  }

  predicate Place(sorted: seq<Span>, s: Span, p: nat) {
    && p <= |sorted|
    && (forall k :: 0 <= k < p ==> sorted[k].start <= s.start)
    && (forall k :: p <= k < |sorted| ==> sorted[k].start >= s.start)
  }

  lemma Inserted(list: seq<Span>, sorted: seq<Span>, s: Span, p: nat)
    requires IsSort(list, sorted) && Place(sorted, s, p)
    ensures IsSort(list + [s], Insert(sorted, s, p))
  {
    var r := Insert(sorted, s, p);
    forall j, k | 0 <= j < k < |r| ensures InOrder(r, j, k) {
      assert j != p && k != p ==> InOrder(sorted, if j < p then j else j - 1, if k < p then k else k - 1);
    }
    assert sorted == sorted[..p] + sorted[p..];
  }

  lemma OrderedBefore(sorted: seq<Span>, p: nat, start: nat)
    requires ByStart(sorted) && p <= |sorted| && (p > 0 ==> sorted[p - 1].start <= start)
    ensures forall k :: 0 <= k < p ==> sorted[k].start <= start
  {
    forall k | 0 <= k < p ensures sorted[k].start <= start {
      assert k < p - 1 ==> InOrder(sorted, k, p - 1);
    }
  }

  /** An insertion sort that may put equal starts in any order: any result sort.Slice may give. */
  method SortByStart(list: seq<Span>) returns (sorted: seq<Span>)
    ensures IsSort(list, sorted)
  {
    sorted := [];
    for n := 0 to |list|
      invariant IsSort(list[..n], sorted)
    {
      var s, p := list[n], |sorted|;
      while p > 0 && sorted[p - 1].start >= s.start
        invariant 0 <= p <= |sorted| && forall k :: p <= k < |sorted| ==> sorted[k].start >= s.start
      {
        var stay: bool := *;
        if stay && sorted[p - 1].start == s.start {
          break;
        }
        p := p - 1;
      }
      OrderedBefore(sorted, p, s.start);
      Inserted(list[..n], sorted, s, p);
      assert list[..n + 1] == list[..n] + [s];
      sorted := Insert(sorted, s, p);
    }
    assert list[..|list|] == list;
  }

  /** A list can be sorted. */
  lemma {:induction false} Sortable(list: seq<Span>) returns (sorted: seq<Span>)
    ensures IsSort(list, sorted)
  {
    if list == [] {
      sorted := [];
    } else {
      var n := |list| - 1;
      sorted := Sortable(list[..n]);
      var p := LastPlace(sorted, list[n]);
      Inserted(list[..n], sorted, list[n], p);
      assert list == list[..n] + [list[n]];
      sorted := Insert(sorted, list[n], p);
    }
  }

  /** The place behind every span that does not start higher. */
  lemma {:induction false} LastPlace(sorted: seq<Span>, s: Span) returns (p: nat)
    requires ByStart(sorted)
    ensures Place(sorted, s, p) && forall k :: p <= k < |sorted| ==> sorted[k].start > s.start
  {
    p := |sorted|;
    while p > 0 && sorted[p - 1].start > s.start
      invariant p <= |sorted| && forall k :: p <= k < |sorted| ==> sorted[k].start > s.start
    {
      p := p - 1;
    }
    OrderedBefore(sorted, p, s.start);
  }

  /** Some sort shows any given uppermost span. */
  lemma SortShowing(list: seq<Span>, s: Span, i: nat) returns (sorted: seq<Span>)
    requires Uppermost(list, s, i)
    ensures IsSort(list, sorted) && Top(sorted, i) == Some(ByteOf(s, i))
  {
    var k :| 0 <= k < |list| && list[k] == s;
    var rest := list[..k] + list[k + 1..];
    assert list == list[..k] + [s] + list[k + 1..];
    var others := Sortable(rest);
    var p := LastPlace(others, s);
    Inserted(rest, others, s, p);
    sorted := Insert(others, s, p);
    assert sorted[p] == s;
    forall j | p < j < |sorted| ensures !sorted[j].Covers(i) {
      assert sorted[j] == others[j - 1];
      SortHas(rest, others, others[j - 1]);
    }
    TopIs(sorted, p, i);
  }

  /* ---- when the sorted list is right ---- */

  /** Outside the write, every span that may come out on top shows the byte the file shows. */
  ghost predicate Keeps(spans: seq<Span>, off: nat, data: Bytes) {
    forall i: nat, s: Span :: !(off <= i < off + |data|) && Uppermost(Rebuilt(spans, off, data), s, i) ==>
                                Top(spans, i) == Some(ByteOf(s, i))
  }

  /** Outside the write, some byte of the file is covered by another one in every sorted list. */
  ghost predicate Loses(spans: seq<Span>, off: nat, data: Bytes) {
    exists i: nat :: !(off <= i < off + |data|) && Hidden(spans, off, data, i)
  }

  ghost predicate Hidden(spans: seq<Span>, off: nat, data: Bytes, i: nat) {
    && Top(spans, i).Some?
    && forall s :: Uppermost(Rebuilt(spans, off, data), s, i) ==> Top(spans, i) != Some(ByteOf(s, i))
  }

  /** Some span of the list covers the byte. */
  predicate Covered(list: seq<Span>, i: nat) {
    exists s :: s in list && s.Covers(i)
  }

  lemma TopCovered(list: seq<Span>, i: nat)
    ensures Top(list, i).Some? <==> Covered(list, i)
  {
    if Top(list, i).Some? {
      var k := TopWitness(list, i);
      assert list[k] in list;
    } else if Covered(list, i) {
      var s :| s in list && s.Covers(i);
      var k :| 0 <= k < |list| && list[k] == s;
      TopNone(list, i, k);
    }
  }

  lemma RebuiltCovers(spans: seq<Span>, off: nat, data: Bytes, i: nat)
    requires data != [] && !(off <= i < off + |data|)
    ensures Covered(Rebuilt(spans, off, data), i) <==> Covered(spans, i)
  {
    hide Keep, Touching, Merged, Rebuilt, Top;
    var end, m, list := off + |data|, Merged(spans, off, data), Rebuilt(spans, off, data);
    var touching := Touching(spans, off, end);
    MergedCovers(spans, off, data, i);
    TopCovered(touching, i);
    if Covered(spans, i) {
      var s :| s in spans && s.Covers(i);
      Sides(spans, off, end, s);
      RebuiltHas(spans, off, data, s);
      RebuiltHas(spans, off, data, m);
    }
    if Covered(list, i) {
      var s :| s in list && s.Covers(i);
      RebuiltHas(spans, off, data, s);
      if s == m {
        var t :| t in touching && t.Covers(i);
        Sides(spans, off, end, t);
      }
    }
  }

  /** What is covered stays covered, and nothing else comes to be. */
  lemma StillCovered(spans: seq<Span>, off: nat, data: Bytes, sorted: seq<Span>, i: nat)
    requires data != [] && IsSort(Rebuilt(spans, off, data), sorted) && !(off <= i < off + |data|)
    ensures Top(sorted, i).Some? <==> Top(spans, i).Some?
  {
    hide Rebuilt, Top;
    TopCovered(spans, i);
    TopCovered(sorted, i);
    RebuiltCovers(spans, off, data, i);
    forall s ensures s in sorted <==> s in Rebuilt(spans, off, data) {
      SortHas(Rebuilt(spans, off, data), sorted, s);
    }
  }

  /** The write itself always shows. */
  lemma WriteShows(spans: seq<Span>, off: nat, data: Bytes, sorted: seq<Span>, i: nat)
    requires IsSort(Rebuilt(spans, off, data), sorted) && off <= i < off + |data|
    ensures Top(sorted, i) == Some(data[i - off])
  {
    var list, m := Rebuilt(spans, off, data), Merged(spans, off, data);
    RebuiltHas(spans, off, data, m);
    SortHas(list, sorted, m);
    assert m.Covers(i);
    TopCovered(sorted, i);
    var s := SortedTop(list, sorted, i);
    RebuiltHas(spans, off, data, s);
    assert s == m;
  }

  /** Whatever the sort does with equal starts, the sorted list shows exactly the write if and only if `Keeps`. */
  lemma KeepsExactly(spans: seq<Span>, off: nat, data: Bytes)
    requires data != []
    ensures Keeps(spans, off, data) <==> forall sorted :: IsSort(Rebuilt(spans, off, data), sorted) ==> Overlays(spans, off, data, sorted)
  {
    if Keeps(spans, off, data) {
      forall sorted | IsSort(Rebuilt(spans, off, data), sorted) ensures Overlays(spans, off, data, sorted) {
        KeepsOverlays(spans, off, data, sorted);
      }
    } else {
      var i: nat, s: Span :| !(off <= i < off + |data|) && Uppermost(Rebuilt(spans, off, data), s, i) && Top(spans, i) != Some(ByteOf(s, i));
      var sorted := SortShowing(Rebuilt(spans, off, data), s, i);
      assert !Overlays(spans, off, data, sorted);
    }
  }

  lemma KeepsOverlays(spans: seq<Span>, off: nat, data: Bytes, sorted: seq<Span>)
    requires data != [] && Keeps(spans, off, data) && IsSort(Rebuilt(spans, off, data), sorted)
    ensures Overlays(spans, off, data, sorted)
  {
    forall i: nat ensures Top(sorted, i) == if off <= i < off + |data| then Some(data[i - off]) else Top(spans, i) {
      if off <= i < off + |data| {
        WriteShows(spans, off, data, sorted, i);
      } else {
        StillCovered(spans, off, data, sorted, i);
        if Top(sorted, i).Some? {
          var s := SortedTop(Rebuilt(spans, off, data), sorted, i);
        }
      }
    }
  }

  lemma LosesByte(spans: seq<Span>, off: nat, data: Bytes, sorted: seq<Span>) returns (i: nat)
    requires data != [] && Loses(spans, off, data) && IsSort(Rebuilt(spans, off, data), sorted)
    ensures !(off <= i < off + |data|) && Top(spans, i).Some? && Top(sorted, i).Some? && Top(sorted, i) != Top(spans, i)
  {
    i :| !(off <= i < off + |data|) && Hidden(spans, off, data, i);
    StillCovered(spans, off, data, sorted, i);
    var s := SortedTop(Rebuilt(spans, off, data), sorted, i);
  }

  /* ---- the fast path ---- */

  /** The first span the write does not lie behind takes it, if it starts at or below it and the next span starts above it. */
  predicate Fast(spans: seq<Span>, off: nat, end: nat, k: nat) {
    && k < |spans| && (forall j :: 0 <= j < k ==> spans[j].End() < off)
    && spans[k].start <= off <= spans[k].End() && (k + 1 < |spans| ==> spans[k + 1].start > end)
  }

  ghost predicate HasFast(spans: seq<Span>, off: nat, end: nat) {
    exists k: nat :: Fast(spans, off, end, k)
  }

  /** Sorted, or sorted behind a first span at `settled`. */
  predicate Tidy(spans: seq<Span>, settled: nat) {
    ByStart(spans) || (spans != [] && spans[0].start == settled && ByStart(spans[1..]))
  }

  lemma TidyTail(spans: seq<Span>, settled: nat, j: nat, k: nat)
    requires Tidy(spans, settled) && 0 < j < k < |spans|
    ensures spans[j].start <= spans[k].start
  {
    if ByStart(spans) {
      assert InOrder(spans, j, k);
    } else {
      assert InOrder(spans[1..], j - 1, k - 1);
    }
  }

  /** The two copies of the fast path: into the span, then past its end. */
  method CopyInto(sp: Span, off: nat, data: Bytes) returns (bytes: Bytes)
    requires sp.start <= off <= sp.End()
    ensures bytes == Overwrite(sp.data, off - sp.start, data)
  {
    if off + |data| <= sp.End() {
      bytes := Overwrite(sp.data, off - sp.start, data);
    } else {
      var overlap := sp.End() - off;
      var head := if overlap > 0 then Overwrite(sp.data, off - sp.start, data[..overlap]) else sp.data;
      bytes := head + data[overlap..];
    }
  }

  lemma {:induction false} TopUpdate(spans: seq<Span>, k: nat, s: Span, i: nat)
    requires k < |spans| && (s.Covers(i) <==> spans[k].Covers(i)) && (s.Covers(i) ==> ByteOf(s, i) == ByteOf(spans[k], i))
    ensures Top(spans[k := s], i) == Top(spans, i)
  {
    var n := |spans| - 1;
    assert spans[k := s][..n] == if k < n then spans[..n][k := s] else spans[..n];
    if k < n {
      TopUpdate(spans[..n], k, s, i);
    }
  }

  lemma FastOverlays(spans: seq<Span>, settled: nat, off: nat, data: Bytes, k: nat)
    requires Tidy(spans, settled) && data != [] && Fast(spans, off, off + |data|, k)
    ensures Overlays(spans, off, data, spans[k := Span(spans[k].start, Overwrite(spans[k].data, off - spans[k].start, data))])
  {
    var s := Span(spans[k].start, Overwrite(spans[k].data, off - spans[k].start, data));
    var after := spans[k := s];
    forall i: nat ensures Top(after, i) == if off <= i < off + |data| then Some(data[i - off]) else Top(spans, i) {
      if off <= i < off + |data| {
        forall j | k < j < |after| ensures !after[j].Covers(i) {
          if j > k + 1 {
            TidyTail(spans, settled, k + 1, j);
          }
        }
        TopIs(after, k, i);
      } else {
        TopUpdate(spans, k, s, i);
      }
    }
  }

  /** How far a list reaches after a write: no higher than before or than the write, and no lower than before unless the
      write itself starts lower. */
  ghost predicate Reaches(before: seq<Span>, off: nat, data: Bytes, after: seq<Span>) {
    && (forall limit: nat :: Below(before, limit) && off + |data| <= limit ==> Below(after, limit))
    && (forall floor: nat :: From(before, floor) ==> (From(after, floor) <==> off >= floor))
  }

  /** The fast path of writeLocked: extend or overwrite a single span where it stands. */
  method WriteInPlace(spans: seq<Span>, off: nat, data: Bytes, ghost settled: nat) returns (done: bool, after: seq<Span>)
    requires Tidy(spans, settled) && Filled(spans) && data != []
    ensures done <==> HasFast(spans, off, off + |data|)
    ensures done ==> Overlays(spans, off, data, after) && Reaches(spans, off, data, after)
    ensures done ==> Tidy(after, settled) && Filled(after) && (WellFormed(spans) ==> WellFormed(after))
  {
    var end := off + |data|;
    var k := 0;
    done, after := false, spans;
    while k < |spans| && spans[k].End() < off
      invariant k <= |spans| && forall j :: 0 <= j < k ==> spans[j].End() < off
    {
      k := k + 1;
    }
    if k == |spans| || spans[k].start > off || (k + 1 < |spans| && spans[k + 1].start <= end) {
      return;
    }
    assert Fast(spans, off, end, k);
    var bytes := CopyInto(spans[k], off, data);
    FastOverlays(spans, settled, off, data, k);
    FastShape(spans, settled, off, data, k, Span(spans[k].start, bytes));
    done, after := true, spans[k := Span(spans[k].start, bytes)];
  }

  lemma FastShape(spans: seq<Span>, settled: nat, off: nat, data: Bytes, k: nat, s: Span)
    requires Tidy(spans, settled) && Filled(spans) && data != [] && Fast(spans, off, off + |data|, k)
    requires s.start == spans[k].start && s.End() == Max(spans[k].End(), off + |data|)
    ensures Tidy(spans[k := s], settled) && Filled(spans[k := s]) && Reaches(spans, off, data, spans[k := s])
    ensures WellFormed(spans) ==> WellFormed(spans[k := s])
  {
    var after := spans[k := s];
    if ByStart(spans) {
      forall i, j | 0 <= i < j < |after| ensures InOrder(after, i, j) {
        assert InOrder(spans, i, j);
      }
    } else {
      forall i, j | 0 <= i < j < |after[1..]| ensures InOrder(after[1..], i, j) {
        assert InOrder(spans[1..], i, j);
      }
    }
    if WellFormed(spans) {
      forall i, j | 0 <= i < j < |after| ensures Apart(after, i, j) {
        assert Apart(spans, i, j);
        assert i == k && j > k + 1 ==> Apart(spans, k + 1, j);
      }
    }
    forall floor: nat | From(spans, floor) ensures From(after, floor) <==> off >= floor {
    }
  }

  /* ---- the general path ---- */

  /** The partition loop. */
  method Partition(spans: seq<Span>, off: nat, end: nat) returns (keep: seq<Span>, overlap: seq<Span>, start: nat, stop: nat)
    ensures keep == Keep(spans, off, end) && overlap == Touching(spans, off, end)
    ensures start == Low(overlap, off) && stop == High(overlap, end)
  {
    keep, overlap, start, stop := [], [], off, end;
    for k := 0 to |spans|
      invariant keep == Keep(spans[..k], off, end) && overlap == Touching(spans[..k], off, end)
      invariant start == Low(overlap, off) && stop == High(overlap, end)
    {
      var sp := spans[k];
      assert spans[..k + 1][..k] == spans[..k];
      if sp.End() < off || sp.start > end {
        keep := keep + [sp];
      } else {
        assert (overlap + [sp])[..|overlap|] == overlap;
        overlap := overlap + [sp];
        if sp.start < start {
          start := sp.start;
        }
        if sp.End() > stop {
          stop := sp.End();
        }
      }
    }
    assert spans[..|spans|] == spans;
  }

  function Painted(overlap: seq<Span>, i: nat): Byte {
    match Top(overlap, i)
    case Some(b) => b
    case None => 0
  }

  /** The buffer: the touched spans in list order, then the new bytes. */
  method MergeBuffer(overlap: seq<Span>, off: nat, data: Bytes, start: nat, stop: nat) returns (buf: Bytes)
    requires start == Low(overlap, off) && stop == High(overlap, off + |data|)
    ensures start <= stop && buf == MergedData(overlap, off, data, start, stop)
  {
    hide Low, High, Overwrite;
    LowIs(overlap, off);
    HighIs(overlap, off + |data|);
    buf := Zeros(stop - start);
    for m := 0 to |overlap|
      invariant |buf| == stop - start && forall i :: 0 <= i < |buf| ==> buf[i] == Painted(overlap[..m], start + i)
    {
      var sp := overlap[m];
      assert sp in overlap;
      assert overlap[..m + 1][..m] == overlap[..m];
      buf := Overwrite(buf, sp.start - start, sp.data);
    }
    assert overlap[..|overlap|] == overlap;
    buf := Overwrite(buf, off - start, data);
  }

  /** The general path of writeLocked: partition, merge under the new bytes, sort. */
  method WriteMerging(spans: seq<Span>, off: nat, data: Bytes) returns (after: seq<Span>)
    requires Filled(spans) && data != []
    ensures IsSort(Rebuilt(spans, off, data), after)
    ensures Filled(after) && Reaches(spans, off, data, after) && (WellFormed(spans) ==> WellFormed(after))
  {
    var keep, overlap, start, stop := Partition(spans, off, off + |data|);
    var buf := MergeBuffer(overlap, off, data, start, stop);
    assert Span(start, buf) == Merged(spans, off, data);
    after := SortByStart(keep + [Span(start, buf)]);
    RebuiltReaches(spans, off, data, after);
    if WellFormed(spans) {
      RebuiltWellFormed(spans, off, data, after);
    }
  }

  lemma RebuiltReaches(spans: seq<Span>, off: nat, data: Bytes, after: seq<Span>)
    requires Filled(spans) && data != [] && IsSort(Rebuilt(spans, off, data), after)
    ensures Filled(after) && Reaches(spans, off, data, after)
  {
    hide Rebuilt;
    var m, touching := Merged(spans, off, data), Touching(spans, off, off + |data|);
    LowIs(touching, off);
    HighIs(touching, off + |data|);
    forall s ensures s in after <==> s == m || (s in spans && !Touches(s, off, off + |data|)) {
      SortHas(Rebuilt(spans, off, data), after, s);
      RebuiltHas(spans, off, data, s);
    }
    forall s | s in touching ensures s in spans {
      Sides(spans, off, off + |data|, s);
    }
    assert m in after;
    forall k | 0 <= k < |after| ensures after[k] == m || after[k] in spans {
      assert after[k] in after;
    }
  }

  /* ---- ordered, separated lists ---- */

  predicate Separate(s: Span, t: Span) {
    s.End() < t.start || t.End() < s.start
  }

  predicate Scattered(list: seq<Span>) {
    && Filled(list)
    && forall j, k :: 0 <= j < k < |list| ==> Separate(list[j], list[k])
  }

  lemma CountedTwice(list: seq<Span>, j: nat, k: nat)
    requires j < k < |list| && list[j] == list[k]
    ensures multiset(list)[list[j]] >= 2
  {
    assert list == list[..j] + [list[j]] + list[j + 1..k] + [list[k]] + list[k + 1..];
  }

  lemma TwoPlaces(list: seq<Span>, s: Span) returns (j: nat, k: nat)
    requires multiset(list)[s] >= 2
    ensures j < k < |list| && list[j] == list[k] == s
  {
    assert s in multiset(list);
    var a :| 0 <= a < |list| && list[a] == s;
    assert list == list[..a] + [s] + list[a + 1..];
    if s in list[..a] {
      var b :| 0 <= b < a && list[..a][b] == s;
      j, k := b, a;
    } else {
      assert s in multiset(list[a + 1..]);
      var b :| 0 <= b < |list| - a - 1 && list[a + 1..][b] == s;
      j, k := a, a + 1 + b;
    }
  }

  /** Sorting spans that are apart from each other gives a well-formed list. */
  lemma ScatteredSort(list: seq<Span>, sorted: seq<Span>)
    requires Scattered(list) && IsSort(list, sorted)
    ensures WellFormed(sorted)
  {
    forall k | 0 <= k < |sorted| ensures sorted[k].data != [] {
      SortHas(list, sorted, sorted[k]);
    }
    forall j, k | 0 <= j < k < |sorted| ensures Apart(sorted, j, k) {
      SortHas(list, sorted, sorted[j]);
      SortHas(list, sorted, sorted[k]);
      assert InOrder(sorted, j, k);
      if sorted[j] == sorted[k] {
        CountedTwice(sorted, j, k);
        var a, b := TwoPlaces(list, sorted[j]);
        assert false;
      } else {
        var a :| 0 <= a < |list| && list[a] == sorted[j];
        var b :| 0 <= b < |list| && list[b] == sorted[k];
        assert Separate(list[a], list[b]) || Separate(list[b], list[a]);
      }
    }
  }

  lemma {:induction false} KeepScattered(spans: seq<Span>, off: nat, end: nat)
    requires WellFormed(spans)
    ensures Scattered(Keep(spans, off, end))
  {
    if spans != [] {
      var n := |spans| - 1;
      PartWellFormed(spans, 0, n);
      KeepScattered(spans[..n], off, end);
      var keep := Keep(spans[..n], off, end);
      forall k | 0 <= k < |keep| ensures Separate(keep[k], spans[n]) {
        Sides(spans[..n], off, end, keep[k]);
        var j :| 0 <= j < n && spans[..n][j] == keep[k];
        assert Apart(spans, j, n);
      }
    }
  }

  lemma RebuiltWellFormed(spans: seq<Span>, off: nat, data: Bytes, after: seq<Span>)
    requires WellFormed(spans) && data != [] && IsSort(Rebuilt(spans, off, data), after)
    ensures WellFormed(after)
  {
    var end, list, m := off + |data|, Rebuilt(spans, off, data), Merged(spans, off, data);
    var keep, touching := Keep(spans, off, end), Touching(spans, off, end);
    KeepScattered(spans, off, end);
    forall k | 0 <= k < |keep| ensures Separate(keep[k], m) {
      KeptApart(spans, off, end, keep[k]);
      LowIs(touching, off);
      HighIs(touching, end);
    }
    ScatteredSort(list, after);
  }

  /** A kept span lies on one side of the write and of everything the write touches. */
  lemma KeptApart(spans: seq<Span>, off: nat, end: nat, s: Span)
    requires WellFormed(spans) && off < end && s in Keep(spans, off, end)
    ensures s.End() < Low(Touching(spans, off, end), off) || s.start > High(Touching(spans, off, end), end)
  {
    var touching := Touching(spans, off, end);
    Sides(spans, off, end, s);
    LowIs(touching, off);
    HighIs(touching, end);
    var k :| 0 <= k < |spans| && spans[k] == s;
    forall t | t in touching ensures if s.End() < off then s.End() < t.start else t.End() < s.start {
      Sides(spans, off, end, t);
      var j :| 0 <= j < |spans| && spans[j] == t;
      assert j < k ==> Apart(spans, j, k);
      assert k < j ==> Apart(spans, k, j);
    }
  }

  /** On a well-formed list every write shows exactly. */
  lemma WellFormedKeeps(spans: seq<Span>, off: nat, data: Bytes)
    requires WellFormed(spans) && data != []
    ensures Keeps(spans, off, data)
  {
    forall i: nat, s: Span | !(off <= i < off + |data|) && Uppermost(Rebuilt(spans, off, data), s, i)
      ensures Top(spans, i) == Some(ByteOf(s, i))
    {
      RebuiltHas(spans, off, data, s);
      var t := s;
      if s == Merged(spans, off, data) {
        MergedCovers(spans, off, data, i);
        var j := TopWitness(Touching(spans, off, off + |data|), i);
        t := Touching(spans, off, off + |data|)[j];
        Sides(spans, off, off + |data|, t);
      }
      var k :| 0 <= k < |spans| && spans[k] == t;
      TopHit(spans, k, i);
    }
  }

  /* ---- a list with a span read back in front ---- */

  /** Well-formed spans that all end inside the span in front of them. */
  predicate Collided(back: Span, cut: seq<Span>) {
    WellFormed(cut) && Below(cut, back.End())
  }

  /** A dirty byte of a span that starts no higher than the one in front, which a write lying behind that span or below
      the one in front lets the latter cover. */
  predicate Exposed(back: Span, s: Span, i: nat, off: nat, end: nat) {
    && s.start <= back.start && s.Covers(i) && back.Covers(i) && ByteOf(s, i) != ByteOf(back, i)
    && (s.End() < off || end < back.start)
  }

  ghost predicate Exposes(back: Span, cut: seq<Span>, off: nat, end: nat) {
    exists s, i: nat :: s in cut && Exposed(back, s, i, off, end)
  }

  predicate Buried(back: Span, s: Span, i: nat, off: nat, end: nat) {
    Exposed(back, s, i, off, end) && s.start < back.start
  }

  ghost predicate Buries(back: Span, cut: seq<Span>, off: nat, end: nat) {
    exists s, i: nat :: s in cut && Buried(back, s, i, off, end)
  }

  lemma OneCoverer(cut: seq<Span>, s: Span, t: Span, i: nat)
    requires WellFormed(cut) && s in cut && t in cut && s.Covers(i) && t.Covers(i)
    ensures s == t
  {
    var j :| 0 <= j < |cut| && cut[j] == s;
    var k :| 0 <= k < |cut| && cut[k] == t;
    assert j < k ==> Apart(cut, j, k);
    assert k < j ==> Apart(cut, k, j);
  }

  lemma TopCut(back: Span, cut: seq<Span>, i: nat)
    requires WellFormed(cut)
    ensures forall s :: s in cut && s.Covers(i) ==> Top([back] + cut, i) == Some(ByteOf(s, i))
    ensures !Covered(cut, i) && back.Covers(i) ==> Top([back] + cut, i) == Some(ByteOf(back, i))
  {
    TopPrepend(back, cut, i);
    TopCovered(cut, i);
    if Top(cut, i).Some? {
      var k := TopWitness(cut, i);
      forall s | s in cut && s.Covers(i) ensures s == cut[k] {
        OneCoverer(cut, s, cut[k], i);
      }
    }
  }

  lemma {:induction false} TouchingPrepend(back: Span, cut: seq<Span>, off: nat, end: nat)
    ensures Touching([back] + cut, off, end) == (if Touches(back, off, end) then [back] else []) + Touching(cut, off, end)
  {
    if cut != [] {
      var n := |cut| - 1;
      assert ([back] + cut)[..n + 1] == [back] + cut[..n];
      TouchingPrepend(back, cut[..n], off, end);
    }
  }

  /** What the merged span of a collided list shows outside the write. */
  lemma CollidedMerged(back: Span, cut: seq<Span>, off: nat, data: Bytes, i: nat)
    requires Collided(back, cut) && data != [] && !(off <= i < off + |data|)
    ensures var m, end := Merged([back] + cut, off, data), off + |data|;
            && (forall s :: s in cut && Touches(s, off, end) && s.Covers(i) ==> m.Covers(i) && ByteOf(m, i) == ByteOf(s, i))
            && (Touches(back, off, end) && back.Covers(i) && (forall s :: s in cut && s.Covers(i) ==> !Touches(s, off, end)) ==>
                  m.Covers(i) && ByteOf(m, i) == ByteOf(back, i))
            && (m.Covers(i) ==> (Touches(back, off, end) && back.Covers(i)) || exists s :: s in cut && Touches(s, off, end) && s.Covers(i))
  {
    hide Merged, Touching, Top;
    var list, end := [back] + cut, off + |data|;
    var touched := Touching(cut, off, end);
    MergedCovers(list, off, data, i);
    TouchingPrepend(back, cut, off, end);
    TopCovered(touched, i);
    forall s ensures s in touched <==> s in cut && Touches(s, off, end) {
      Sides(cut, off, end, s);
    }
    if Top(touched, i).Some? {
      var k := TopWitness(touched, i);
      forall s | s in cut && s.Covers(i) ensures s == touched[k] {
        OneCoverer(cut, s, touched[k], i);
      }
    }
    if Touches(back, off, end) {
      TopPrepend(back, touched, i);
    } else {
      assert [] + touched == touched;
    }
  }

  lemma CollidedHas(back: Span, cut: seq<Span>, off: nat, data: Bytes, s: Span)
    ensures s in Rebuilt([back] + cut, off, data) <==>
              s == Merged([back] + cut, off, data) || ((s == back || s in cut) && !Touches(s, off, off + |data|))
  {
    RebuiltHas([back] + cut, off, data, s);
  }

  lemma MergedLow(back: Span, cut: seq<Span>, off: nat, data: Bytes)
    ensures var m, end := Merged([back] + cut, off, data), off + |data|;
            && m.start <= off && (Touches(back, off, end) ==> m.start <= back.start)
            && (m.start == off || (Touches(back, off, end) && m.start == back.start) || exists s :: s in cut && Touches(s, off, end) && m.start == s.start)
  {
    var list, end := [back] + cut, off + |data|;
    LowIs(Touching(list, off, end), off);
    forall s ensures s in Touching(list, off, end) <==> (s == back || s in cut) && Touches(s, off, end) {
      Sides(list, off, end, s);
    }
  }

  /** If no dirty byte is exposed, whatever comes out on top is right. */
  lemma UnexposedTop(back: Span, cut: seq<Span>, off: nat, data: Bytes, i: nat, s: Span)
    requires Collided(back, cut) && data != [] && !Exposes(back, cut, off, off + |data|)
    requires !(off <= i < off + |data|) && Uppermost(Rebuilt([back] + cut, off, data), s, i)
    ensures Top([back] + cut, i) == Some(ByteOf(s, i))
  {
    hide Rebuilt, Merged, Top;
    var m, end := Merged([back] + cut, off, data), off + |data|;
    TopCut(back, cut, i);
    CollidedMerged(back, cut, off, data, i);
    CollidedHas(back, cut, off, data, s);
    MergedLow(back, cut, off, data);
    if s !in cut && Covered(cut, i) {
      var t :| t in cut && t.Covers(i);
      CollidedHas(back, cut, off, data, t);
      CollidedHas(back, cut, off, data, m);
      assert !Exposed(back, t, i, off, end);
      var k :| 0 <= k < |cut| && cut[k] == t;
      assert t.End() <= back.End();
    }
  }

  /** An exposed byte may be covered by the span in front, and must be if its own span starts below that one. */
  lemma ExposedTop(back: Span, cut: seq<Span>, off: nat, data: Bytes, i: nat, s: Span) returns (x: Span)
    requires Collided(back, cut) && data != [] && s in cut && Exposed(back, s, i, off, off + |data|)
    ensures !(off <= i < off + |data|) && Top([back] + cut, i) == Some(ByteOf(s, i))
    ensures Uppermost(Rebuilt([back] + cut, off, data), x, i) && ByteOf(x, i) == ByteOf(back, i)
    ensures s.start < back.start ==> Hidden([back] + cut, off, data, i)
  {
    hide Rebuilt, Merged, Top;
    var m, end, list := Merged([back] + cut, off, data), off + |data|, Rebuilt([back] + cut, off, data);
    var k :| 0 <= k < |cut| && cut[k] == s;
    assert s.End() <= back.End();
    TopCut(back, cut, i);
    CollidedMerged(back, cut, off, data, i);
    MergedLow(back, cut, off, data);
    x := if Touches(back, off, end) then m else back;
    CollidedHas(back, cut, off, data, x);
    forall t | t in cut && t.Covers(i) ensures t == s {
      OneCoverer(cut, t, s, i);
    }
    if Touches(back, off, end) {
      forall t | t in cut && Touches(t, off, end) ensures t.start > s.start {
        var j :| 0 <= j < |cut| && cut[j] == t;
        assert j < k ==> Apart(cut, j, k);
        assert k < j ==> Apart(cut, k, j);
      }
    }
    forall t | t in list && t.Covers(i)
      ensures t.start <= x.start && (t.start == x.start && s.start < back.start ==> ByteOf(t, i) == ByteOf(back, i))
    {
      CollidedHas(back, cut, off, data, t);
    }
  }

  /** The next write on a collided list shows exactly, however the sort treats equal starts, if and only if it exposes no
      dirty byte; a byte whose span starts below the one in front is lost for certain. */
  lemma CollidedKeeps(back: Span, cut: seq<Span>, off: nat, data: Bytes)
    requires Collided(back, cut) && data != []
    ensures Keeps([back] + cut, off, data) <==> !Exposes(back, cut, off, off + |data|)
    ensures Buries(back, cut, off, off + |data|) ==> Loses([back] + cut, off, data)
  {
    hide Rebuilt, Merged, Top;
    if Exposes(back, cut, off, off + |data|) {
      var s, i: nat :| s in cut && Exposed(back, s, i, off, off + |data|);
      var x := ExposedTop(back, cut, off, data, i, s);
    } else {
      forall i: nat, s: Span | !(off <= i < off + |data|) && Uppermost(Rebuilt([back] + cut, off, data), s, i)
        ensures Top([back] + cut, i) == Some(ByteOf(s, i))
      {
        UnexposedTop(back, cut, off, data, i, s);
      }
    }
    if Buries(back, cut, off, off + |data|) {
      var s, i: nat :| s in cut && Buried(back, s, i, off, off + |data|);
      var x := ExposedTop(back, cut, off, data, i, s);
    }
  }

  /** The fast path exposes nothing. */
  lemma CollidedFast(back: Span, cut: seq<Span>, off: nat, data: Bytes)
    requires Collided(back, cut) && data != [] && HasFast([back] + cut, off, off + |data|)
    ensures !Exposes(back, cut, off, off + |data|)
  {
    var list, end := [back] + cut, off + |data|;
    var k: nat :| Fast(list, off, end, k);
    assert list[0] == back && forall j :: 0 < j < |list| ==> list[j] == cut[j - 1];
    assert k == 0;
    forall s | s in cut ensures s.start > end {
      var j :| 0 <= j < |cut| && cut[j] == s;
      assert list[1] == cut[0];
      assert j > 0 ==> Apart(cut, 0, j);
    }
  }
}
