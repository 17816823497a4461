/**
 Rebalancing disks by bytes (server/maintenance.go): shards go from the busiest disk to a lighter one
 that holds no other shard of their vlog, never past the source's load.
 */
module Rebalance {
  import opened Results

  datatype Shard = Shard(plog: nat, vlog: nat, size: nat)

  type Usage = map<nat, int>

  type Disks = map<nat, seq<Shard>>

  /* ---- sums over the active disks ---- */

  predicate Distinct(active: seq<nat>) {
    forall i, j :: 0 <= i < j < |active| ==> active[i] != active[j]
  }

  function Sum(active: seq<nat>, u: Usage): int
    requires forall d :: d in active ==> d in u
  {
    if active == [] then 0 else u[active[0]] + Sum(active[1..], u)
  }

  lemma {:induction false} SumPut(active: seq<nat>, u: Usage, d: nat, x: int)
    requires Distinct(active) && (forall e :: e in active ==> e in u) && d in u
    ensures Sum(active, u[d := x]) == Sum(active, u) + if d in active then x - u[d] else 0
    decreases |active|
  {
    if active != [] {
      assert active == [active[0]] + active[1..];
      assert Distinct(active[1..]);
      SumPut(active[1..], u, d, x);
    }
  }

  function Squares(u: Usage): Usage {
    map d | d in u :: u[d] * u[d]
  }

  /** Loads after `size` bytes went from `src` to `dst`. */
  function Shifted(u: Usage, src: nat, dst: nat, size: int): Usage
    requires src in u && dst in u && src != dst
  {
    u[src := u[src] - size][dst := u[dst] + size]
  }

  function Put2(u: Usage, src: nat, x: int, dst: nat, y: int): Usage {
    var one: Usage := u[src := x];
    one[dst := y]
  }

  lemma SumPut2(active: seq<nat>, u: Usage, src: nat, x: int, dst: nat, y: int)
    requires Distinct(active) && (forall e :: e in active <==> e in u) && src in u && dst in u && src != dst
    ensures Sum(active, Put2(u, src, x, dst, y)) == Sum(active, u) + (x - u[src]) + (y - u[dst])
  {
    hide Sum;
    var one: Usage := u[src := x];
    SumPut(active, u, src, x);
    SumPut(active, one, dst, y);
  }

  lemma SquaresShifted(u: Usage, src: nat, dst: nat, x: int, y: int)
    requires src in u && dst in u && src != dst
    ensures Squares(Put2(u, src, x, dst, y)) == Put2(Squares(u), src, x * x, dst, y * y)
  {
  }

  /** A move conserves the total and lowers the sum of squares by 2 * size * (gap - size). */
  lemma MoveNumbers(active: seq<nat>, u: Usage, src: nat, dst: nat, size: int)
    requires Distinct(active) && (forall e :: e in active <==> e in u) && src in u && dst in u && src != dst
    ensures var t, gap := Shifted(u, src, dst, size), u[src] - u[dst];
            && Sum(active, t) == Sum(active, u)
            && Sum(active, Squares(t)) == Sum(active, Squares(u)) - 2 * (size * (gap - size))
  {
    hide Sum;
    var x, y := u[src] - size, u[dst] + size;
    assert Shifted(u, src, dst, size) == Put2(u, src, x, dst, y);
    SumPut2(active, u, src, x, dst, y);
    SquaresShifted(u, src, dst, x, y);
    SumPut2(active, Squares(u), src, x * x, dst, y * y);
    Algebra(u[src], u[dst], size);
  }

  lemma Algebra(a: int, b: int, z: int)
    ensures (a - z) * (a - z) + (b + z) * (b + z) == a * a + b * b - 2 * (z * ((a - b) - z))
  {
  }

  predicate Within(u: Usage, lo: int, hi: int) {
    forall d :: d in u ==> lo <= u[d] <= hi
  }

  /** A move that does not overshoot keeps every load between the old extremes. */
  lemma SpreadNeverGrows(u: Usage, src: nat, dst: nat, size: nat, lo: int, hi: int)
    requires src in u && dst in u && src != dst && size <= u[src] - u[dst] && Within(u, lo, hi)
    ensures Within(Shifted(u, src, dst, size), lo, hi)
  {
  }

  /* ---- disks and their shards ---- */

  function Load(list: seq<Shard>): nat {
    if list == [] then 0 else list[0].size + Load(list[1..])
  }

  /** No two shards of one vlog. */
  predicate OnePerVlog(list: seq<Shard>) {
    forall i, j :: 0 <= i < j < |list| ==> list[i].vlog != list[j].vlog
  }

  predicate Holds(list: seq<Shard>, vlog: nat) {
    exists i :: 0 <= i < |list| && list[i].vlog == vlog
  }

  function Without(list: seq<Shard>, i: nat): seq<Shard>
    requires i < |list|
  {
    list[..i] + list[i + 1..]
  }

  lemma {:induction false} LoadAppend(a: seq<Shard>, b: seq<Shard>)
    ensures Load(a + b) == Load(a) + Load(b)
    decreases |a|
  {
    if a == [] {
      assert a + b == b;
    } else {
      LoadAppend(a[1..], b);
      assert (a + b)[1..] == a[1..] + b;
    }
  }

  lemma LoadWithout(list: seq<Shard>, i: nat)
    requires i < |list|
    ensures Load(Without(list, i)) == Load(list) - list[i].size
  {
    LoadAppend(list[..i], list[i + 1..]);
    LoadAppend(list[..i], list[i..]);
    assert list[i..][0] == list[i] && list[i..][1..] == list[i + 1..];
    assert list == list[..i] + list[i..];
  }

  lemma LoadMore(list: seq<Shard>, s: Shard)
    ensures Load(list + [s]) == Load(list) + s.size
  {
    LoadAppend(list, [s]);
    assert Load([s]) == s.size + Load([]);
  }

  lemma WithoutOne(list: seq<Shard>, i: nat)
    requires i < |list| && OnePerVlog(list)
    ensures OnePerVlog(Without(list, i))
  {
  }

  lemma OneMore(list: seq<Shard>, s: Shard)
    requires OnePerVlog(list) && !Holds(list, s.vlog)
    ensures OnePerVlog(list + [s])
  {
  }

  /** The conditions under which a shard is moved. */
  predicate Legal(u: Usage, src: nat, dst: nat, size: int, minSkew: int) {
    src in u && dst in u && src != dst && u[src] - u[dst] > minSkew && size <= u[src] - u[dst]
  }

  /* ---- all shards ---- */

  function Shards(active: seq<nat>, byDisk: Disks): multiset<Shard>
    requires forall d :: d in active ==> d in byDisk
  {
    if active == [] then multiset{} else multiset(byDisk[active[0]]) + Shards(active[1..], byDisk)
  }

  lemma {:induction false} ShardsPut(active: seq<nat>, m: Disks, d: nat, list: seq<Shard>)
    requires Distinct(active) && (forall e :: e in active ==> e in m) && d in m
    ensures if d in active then Shards(active, m[d := list]) + multiset(m[d]) == Shards(active, m) + multiset(list)
            else Shards(active, m[d := list]) == Shards(active, m)
    decreases |active|
  {
    if active != [] {
      assert active == [active[0]] + active[1..];
      assert Distinct(active[1..]);
      ShardsPut(active[1..], m, d, list);
      var rest, rest' := Shards(active[1..], m), Shards(active[1..], m[d := list]);
      if d == active[0] {
        assert d !in active[1..];
        Swap(multiset(list), rest, multiset(m[d]));
      } else if d in active {
        Carry(multiset(m[active[0]]), rest', multiset(m[d]), rest, multiset(list));
      }
    }
  }

  lemma Swap(a: multiset<Shard>, b: multiset<Shard>, c: multiset<Shard>)
    ensures a + b + c == c + b + a
  {
  }

  lemma Carry(a: multiset<Shard>, b: multiset<Shard>, c: multiset<Shard>, d: multiset<Shard>, e: multiset<Shard>)
    requires b + c == d + e
    ensures a + b + c == a + d + e
  {
    assert a + b + c == a + (b + c);
    assert a + d + e == a + (d + e);
  }

  lemma Cancel(a: multiset<Shard>, b: multiset<Shard>, c: multiset<Shard>, w: multiset<Shard>, x: multiset<Shard>, y: multiset<Shard>)
    requires b + (w + x) == a + w && c + y == b + (y + x)
    ensures c == a
  {
    forall s: Shard ensures c[s] == a[s] {
      assert (b + (w + x))[s] == (a + w)[s];
      assert (c + y)[s] == (b + (y + x))[s];
    }
  }

  lemma ShardsMove(active: seq<nat>, m: Disks, src: nat, i: nat, dst: nat)
    requires Distinct(active) && (forall e :: e in active <==> e in m) && src in m && dst in m && src != dst && i < |m[src]|
    ensures Shards(active, m[src := Without(m[src], i)][dst := m[dst] + [m[src][i]]]) == Shards(active, m)
  {
    hide Shards;
    var one := m[src := Without(m[src], i)];
    ShardsPut(active, m, src, Without(m[src], i));
    ShardsPut(active, one, dst, m[dst] + [m[src][i]]);
    assert m[src] == m[src][..i] + [m[src][i]] + m[src][i + 1..];
    assert multiset(m[src]) == multiset(Without(m[src], i)) + multiset{m[src][i]};
    assert multiset(m[dst] + [m[src][i]]) == multiset(m[dst]) + multiset{m[src][i]};
    Cancel(Shards(active, m), Shards(active, one), Shards(active, one[dst := m[dst] + [m[src][i]]]),
           multiset(Without(m[src], i)), multiset{m[src][i]}, multiset(m[dst]));
  }

  lemma {:induction false} ShardIn(active: seq<nat>, m: Disks, d: nat, k: nat)
    requires (forall e :: e in active ==> e in m) && d in active && k < |m[d]|
    ensures m[d][k] in Shards(active, m)
    decreases |active|
  {
    assert active == [active[0]] + active[1..];
    if d == active[0] {
      assert m[d][k] in multiset(m[d]);
    } else {
      ShardIn(active[1..], m, d, k);
    }
  }

  /** The sum of squared loads. */
  function Energy(active: seq<nat>, u: Usage): (e: nat)
    requires forall d :: d in active ==> d in u
    ensures e == Sum(active, Squares(u))
    decreases |active|
  {
    if active == [] then 0
    else
      assert active == [active[0]] + active[1..];
      Square(u[active[0]]);
      u[active[0]] * u[active[0]] + Energy(active[1..], u)
  }

  lemma Square(x: int)
    ensures x * x >= 0
  {
  }

  /** Loads before and after some number of legal moves. */
  ghost predicate Progress(active: seq<nat>, u: Usage, t: Usage)
    requires forall d :: d in active <==> d in u
    requires forall d :: d in active <==> d in t
  {
    && Sum(active, t) == Sum(active, u) && Sum(active, Squares(t)) <= Sum(active, Squares(u))
    && forall lo, hi :: Within(u, lo, hi) ==> Within(t, lo, hi)
  }

  lemma LegalProgress(active: seq<nat>, u: Usage, src: nat, dst: nat, size: nat, minSkew: int)
    requires Distinct(active) && (forall d :: d in active <==> d in u) && Legal(u, src, dst, size, minSkew)
    ensures Progress(active, u, Shifted(u, src, dst, size))
    ensures 0 < size < u[src] - u[dst] ==> Sum(active, Squares(Shifted(u, src, dst, size))) + 2 <= Sum(active, Squares(u))
  {
    hide Sum, Squares, Within;
    MoveNumbers(active, u, src, dst, size);
    Product(size, u[src] - u[dst] - size);
    forall lo, hi | Within(u, lo, hi) ensures Within(Shifted(u, src, dst, size), lo, hi) {
      SpreadNeverGrows(u, src, dst, size, lo, hi);
    }
  }

  lemma Product(a: int, b: int)
    requires a >= 0 && b >= 0
    ensures a * b >= 0 && (a > 0 && b > 0 ==> a * b > 0)
  {
  }

  /* ---- choosing a move ---- */

  predicate Allowed(u: Usage, m: Disks, d: nat, src: nat, vlog: nat) {
    d in u && d in m && d != src && !Holds(m[d], vlog)
  }

  /** This shard could go to no allowed disk without overshooting, or only within the band. */
  ghost predicate Stuck(u: Usage, m: Disks, src: nat, s: Shard, minSkew: int)
    requires src in u
  {
    forall d :: Allowed(u, m, d, src, s.vlog) ==> u[src] - u[d] <= minSkew || s.size > u[src] - u[d]
  }

  /** This shard of the source may go to this disk, the lightest allowed one, and all larger ones are busy or stuck. */
  ghost predicate Chosen(u: Usage, m: Disks, src: nat, i: nat, dst: nat, minSkew: int, busy: nat -> bool) {
    && src in u && src in m && i < |m[src]| && !busy(m[src][i].vlog)
    && Allowed(u, m, dst, src, m[src][i].vlog) && Legal(u, src, dst, m[src][i].size, minSkew)
    && (forall d :: Allowed(u, m, d, src, m[src][i].vlog) ==> u[dst] <= u[d])
    && (forall k :: 0 <= k < |m[src]| && m[src][k].size > m[src][i].size ==> busy(m[src][k].vlog) || Stuck(u, m, src, m[src][k], minSkew))
  }

  /** A busiest disk, with every other within the band or with no shard that can move. */
  ghost predicate Settled(u: Usage, m: Disks, src: nat, minSkew: int, busy: nat -> bool)
    requires src in u
  {
    && (forall d :: d in u ==> u[d] <= u[src])
    && ((forall d :: d in u ==> u[src] - u[d] <= minSkew)
        || (src in m && forall i :: 0 <= i < |m[src]| ==> busy(m[src][i].vlog) || Stuck(u, m, src, m[src][i], minSkew)))
  }

  /** The disks after shard `i` of `src` went to `dst`. */
  function Moved(m: Disks, src: nat, i: nat, dst: nat): Disks
    requires src in m && dst in m && i < |m[src]|
  {
    m[src := Without(m[src], i)][dst := m[dst] + [m[src][i]]]
  }

  /* ---- two disks ---- */

  /** No shard is empty, and no vlog has two of them. */
  ghost predicate Apart(a: seq<Shard>, b: seq<Shard>) {
    && (forall i :: 0 <= i < |a| ==> a[i].size > 0 && !Holds(b, a[i].vlog))
    && (forall i :: 0 <= i < |b| ==> b[i].size > 0 && !Holds(a, b[i].vlog))
  }

  /** Two disks with nothing in the way of a move. */
  ghost predicate Pair(active: seq<nat>, m: Disks) {
    |active| == 2 && active[0] in m && active[1] in m && Apart(m[active[0]], m[active[1]])
  }

  ghost predicate PoisedAt(u: Usage, m: Disks, src: nat, dst: nat, minSkew: int) {
    && src in u && dst in u && src in m && u[src] - u[dst] > minSkew
    && exists i :: 0 <= i < |m[src]| && m[src][i].size == u[src] - u[dst]
  }

  /** The busier disk holds a shard as large as the gap: moving it swaps the loads. */
  ghost predicate Poised(active: seq<nat>, u: Usage, m: Disks, minSkew: int) {
    |active| == 2 && (PoisedAt(u, m, active[0], active[1], minSkew) || PoisedAt(u, m, active[1], active[0], minSkew))
  }

  lemma ApartMove(a: seq<Shard>, i: nat, b: seq<Shard>)
    requires i < |a| && OnePerVlog(a) && OnePerVlog(b) && Apart(a, b)
    ensures Apart(Without(a, i), b + [a[i]]) && Apart(b + [a[i]], Without(a, i))
  {
    var rest, more := Without(a, i), b + [a[i]];
    forall k | 0 <= k < |rest| ensures rest[k].size > 0 && !Holds(more, rest[k].vlog) {
      var at := if k < i then k else k + 1;
      assert rest[k] == a[at];
    }
  }

  /** A move between two disks keeps them swapping loads for ever if they do, and else brings them nearer. */
  lemma PairStep(active: seq<nat>, u: Usage, m: Disks, src: nat, i: nat, dst: nat, minSkew: int, busy: nat -> bool)
    requires Distinct(active) && (forall d :: d in active <==> d in u) && u.Keys == m.Keys && Pair(active, m) && minSkew >= 0
    requires forall d :: d in m ==> OnePerVlog(m[d])
    requires Chosen(u, m, src, i, dst, minSkew, busy) && forall v :: !busy(v)
    ensures var u', m' := Shifted(u, src, dst, m[src][i].size), Moved(m, src, i, dst);
            && Pair(active, m')
            && if Poised(active, u, m, minSkew) then Poised(active, u', m', minSkew)
               else Sum(active, Squares(u')) + 2 <= Sum(active, Squares(u))
  {
    hide Sum, Squares, Without, OnePerVlog, Holds, Apart;
    var s := m[src][i];
    var u', m' := Shifted(u, src, dst, s.size), Moved(m, src, i, dst);
    assert active == [active[0], active[1]];
    ApartSwap(m[active[0]], m[active[1]]);
    ApartMove(m[src], i, m[dst]);
    LegalProgress(active, u, src, dst, s.size, minSkew);
    ApartFilled(m[src], m[dst], i);
    if Poised(active, u, m, minSkew) {
      assert PoisedAt(u, m, src, dst, minSkew);
      var g :| 0 <= g < |m[src]| && m[src][g].size == u[src] - u[dst];
      ApartFilled(m[src], m[dst], g);
      assert Allowed(u, m, dst, src, m[src][g].vlog);
      assert m'[dst][|m[dst]|] == s;
      assert PoisedAt(u', m', dst, src, minSkew);
    } else {
      assert !PoisedAt(u, m, src, dst, minSkew);
    }
  }

  lemma ApartSwap(a: seq<Shard>, b: seq<Shard>)
    ensures Apart(a, b) <==> Apart(b, a)
  {
  }

  lemma ApartFilled(a: seq<Shard>, b: seq<Shard>, i: nat)
    requires Apart(a, b) && i < |a|
    ensures a[i].size > 0 && !Holds(b, a[i].vlog)
  {
  }

  function Indices(n: nat): (r: set<nat>)
    ensures forall i: nat :: i in r <==> i < n
  {
    if n == 0 then {} else Indices(n - 1) + {n - 1}
  }

  class Balancer {
    const active: seq<nat>
    var usage: Usage
    var byDisk: Disks

    /** Usage is what lies on each disk, and no disk holds two shards of a vlog. */
    ghost predicate Valid()
      reads this
    {
      && active != [] && Distinct(active) && (forall d :: d in active <==> d in usage) && usage.Keys == byDisk.Keys
      && (forall d :: d in byDisk ==> usage[d] == Load(byDisk[d]) && OnePerVlog(byDisk[d]))
    }

    /** The disks as the catalog lists them, with the sizes of their files added up. */
    constructor (active: seq<nat>, byDisk: Disks)
      requires active != [] && Distinct(active) && (forall d :: d in active <==> d in byDisk)
      requires forall d :: d in byDisk ==> OnePerVlog(byDisk[d])
      ensures Valid() && this.active == active && this.byDisk == byDisk
    {
      this.active, this.byDisk := active, byDisk;
      var sums: Usage := map[];
      for i := 0 to |active|
        invariant forall d :: d in sums <==> d in active[..i]
        invariant forall d :: d in sums ==> d in byDisk && sums[d] == Load(byDisk[d])
      {
        assert active[i] in active && active[..i + 1] == active[..i] + [active[i]];
        var list, size := byDisk[active[i]], 0;
        for k := 0 to |list|
          invariant size == Load(list[..k])
        {
          LoadMore(list[..k], list[k]);
          assert list[..k + 1] == list[..k] + [list[k]];
          size := size + list[k].size;
        }
        assert list[..|list|] == list;
        sums := sums[active[i] := size];
      }
      usage := sums;
    }

    /** diskExtremes. */
    method DiskExtremes() returns (busiest: nat, idlest: nat)
      requires Valid()
      ensures busiest in usage && idlest in usage
      ensures forall d :: d in usage ==> usage[idlest] <= usage[d] <= usage[busiest]
    {
      hide Load, OnePerVlog;
      busiest, idlest := active[0], active[0];
      assert active[0] in active;
      var i := 0;
      while i < |active|
        invariant 0 <= i <= |active| && busiest in usage && idlest in usage
        invariant forall j :: 0 <= j < i ==> usage[idlest] <= usage[active[j]] <= usage[busiest]
      {
        var d := active[i];
        assert d in active;
        if usage[d] > usage[busiest] {
          busiest := d;
        }
        if usage[d] < usage[idlest] {
          idlest := d;
        }
        i := i + 1;
      }
    }

    /** The lightest disk that may take a shard of this vlog. */
    method Destination(src: nat, vlog: nat) returns (dst: Option<nat>)
      requires Valid()
      ensures dst.Some? <==> exists d :: Allowed(usage, byDisk, d, src, vlog)
      ensures dst.Some? ==> Allowed(usage, byDisk, dst.value, src, vlog) && forall d :: Allowed(usage, byDisk, d, src, vlog) ==> usage[dst.value] <= usage[d]
    {
      hide Load, OnePerVlog, Holds;
      dst := None;
      var i := 0;
      while i < |active|
        invariant 0 <= i <= |active|
        invariant dst.None? ==> forall j :: 0 <= j < i ==> !Allowed(usage, byDisk, active[j], src, vlog)
        invariant dst.Some? ==> Allowed(usage, byDisk, dst.value, src, vlog) && forall j :: 0 <= j < i && Allowed(usage, byDisk, active[j], src, vlog) ==> usage[dst.value] <= usage[active[j]]
      {
        var d := active[i];
        assert d in active;
        if Allowed(usage, byDisk, d, src, vlog) && (dst.None? || usage[d] < usage[dst.value]) {
          dst := Some(d);
        }
        i := i + 1;
      }
      assert forall d :: Allowed(usage, byDisk, d, src, vlog) ==> d in active;
    }

    /** migratePlogLocked and the bookkeeping behind it. */
    method MoveShard(src: nat, i: nat, dst: nat)
      requires Valid() && src in byDisk && i < |byDisk[src]| && Allowed(usage, byDisk, dst, src, byDisk[src][i].vlog)
      modifies this`usage, this`byDisk
      ensures Valid() && usage == Shifted(old(usage), src, dst, old(byDisk[src][i].size))
      ensures Shards(active, byDisk) == old(Shards(active, byDisk))
      ensures byDisk == Moved(old(byDisk), src, i, dst)
    {
      hide Load, OnePerVlog, Holds, Without, Shards;
      var s := byDisk[src][i];
      LoadWithout(byDisk[src], i);
      WithoutOne(byDisk[src], i);
      LoadMore(byDisk[dst], s);
      OneMore(byDisk[dst], s);
      ShardsMove(active, byDisk, src, i, dst);
      usage := Shifted(usage, src, dst, s.size);
      byDisk := byDisk[src := Without(byDisk[src], i)][dst := byDisk[dst] + [s]];
    }

    /** The largest shard among those not tried yet. */
    method Largest(list: seq<Shard>, rest: set<nat>) returns (i: nat)
      requires rest != {} && forall k :: k in rest ==> k < |list|
      ensures i in rest && forall k :: k in rest ==> list[k].size <= list[i].size
    {
      i :| i in rest;
      var todo := rest - {i};
      while todo != {}
        invariant todo <= rest && i in rest && forall k :: k in rest && k !in todo ==> list[k].size <= list[i].size
        decreases |todo|
      {
        var k :| k in todo;
        if list[k].size > list[i].size {
          i := k;
        }
        todo := todo - {k};
      }
    }

    /** The lightest allowed disk, if the shard fits into the gap to it and the gap exceeds the band. */
    method Fitting(src: nat, s: Shard, minSkew: int) returns (to: Option<nat>)
      requires Valid() && src in usage
      ensures to.Some? ==> Allowed(usage, byDisk, to.value, src, s.vlog) && Legal(usage, src, to.value, s.size, minSkew)
      ensures to.Some? ==> forall d :: Allowed(usage, byDisk, d, src, s.vlog) ==> usage[to.value] <= usage[d]
      ensures to.None? ==> Stuck(usage, byDisk, src, s, minSkew)
    {
      hide Load, OnePerVlog, Holds, Distinct;
      to := Destination(src, s.vlog);
      if to.Some? && (usage[src] - usage[to.value] <= minSkew || s.size > usage[src] - usage[to.value]) {
        to := None;
      }
    }

    /** rebalanceOneLocked: the largest shard that can legally move does, to the lightest disk that may take it. Nothing
        moves exactly when every shard on the source is busy or stuck, or when the copy fails. */
    method RebalanceOne(src: nat, minSkew: int, busy: nat -> bool, copies: nat -> bool) returns (r: Result<bool>, ghost i: nat, ghost dst: nat)
      requires Valid() && src in usage
      modifies this`usage, this`byDisk
      ensures Valid()
      ensures r == Ok(true) ==> old(Chosen(usage, byDisk, src, i, dst, minSkew, busy)) && usage == Shifted(old(usage), src, dst, old(byDisk)[src][i].size)
      ensures r == Ok(true) ==>
                byDisk == Moved(old(byDisk), src, i, dst)
      ensures r != Ok(true) ==> usage == old(usage) && byDisk == old(byDisk)
      ensures Shards(active, byDisk) == old(Shards(active, byDisk)) && ((forall p :: copies(p)) ==> r.Ok?)
      ensures r == Ok(false) ==> forall i :: 0 <= i < |byDisk[src]| ==> busy(byDisk[src][i].vlog) || Stuck(usage, byDisk, src, byDisk[src][i], minSkew)
    {
      hide Load, OnePerVlog, Holds, Without, Distinct, Shards;
      i, dst := 0, src;
      var list := byDisk[src];
      var rest: set<nat> := Indices(|list|);
      while rest != {}
        invariant Valid() && usage == old(usage) && byDisk == old(byDisk)
        invariant forall k :: k in rest ==> k < |list|
        invariant forall k :: 0 <= k < |list| && k !in rest ==> busy(list[k].vlog) || Stuck(usage, byDisk, src, list[k], minSkew)
        decreases |rest|
      {
        var at := Largest(list, rest);
        var s := list[at];
        if !busy(s.vlog) {
          var to := Fitting(src, s, minSkew);
          if to.Some? {
            if !copies(s.plog) {
              return Err, i, dst;
            }
            assert Chosen(usage, byDisk, src, at, to.value, minSkew, busy);
            MoveShard(src, at, to.value);
            return Ok(true), at, to.value;
          }
        }
        rest := rest - {at};
      }
      return Ok(false), i, dst;
    }

    /** Disks that swap their loads are not settled: the shard as large as the gap may always move. */
    lemma PoisedMoves(src: nat, dst: nat, minSkew: int, busy: nat -> bool)
      requires Valid() && Pair(active, byDisk) && Poised(active, usage, byDisk, minSkew) && minSkew >= 0 && forall v :: !busy(v)
      requires src in usage && dst in usage && forall d :: d in usage ==> usage[dst] <= usage[d] <= usage[src]
      ensures usage[src] - usage[dst] > minSkew
      ensures exists i :: 0 <= i < |byDisk[src]| && !busy(byDisk[src][i].vlog) && !Stuck(usage, byDisk, src, byDisk[src][i], minSkew)
    {
      hide Load, OnePerVlog, Holds, Apart;
      assert active == [active[0], active[1]];
      assert PoisedAt(usage, byDisk, src, dst, minSkew);
      var i :| 0 <= i < |byDisk[src]| && byDisk[src][i].size == usage[src] - usage[dst];
      ApartSwap(byDisk[active[0]], byDisk[active[1]]);
      ApartFilled(byDisk[src], byDisk[dst], i);
      assert Allowed(usage, byDisk, dst, src, byDisk[src][i].vlog);
    }

    /** What a pass keeps, however far it got: the shards, the total, the spread, and the sum of squared loads from above. */
    twostate predicate Kept()
      requires old(Valid()) && Valid()
      reads this
    {
      Shards(active, byDisk) == old(Shards(active, byDisk)) && Progress(active, old(usage), usage)
    }

    /** Nothing is busy, copies succeed, and two disks may take each other's shards. */
    ghost predicate Paired(minSkew: int, busy: nat -> bool, copies: nat -> bool)
      reads this
    {
      minSkew >= 0 && (forall v :: !busy(v)) && (forall p :: copies(p)) && Pair(active, byDisk)
    }

    /** One turn of the loop. A move of a shard that is neither empty nor as large as the gap lowers the sum of squared
        loads; two disks that swap their loads go on doing so. */
    method Turn(minSkew: int, busy: nat -> bool, copies: nat -> bool) returns (moved: bool, ok: bool)
      requires Valid()
      modifies this`usage, this`byDisk
      ensures Valid() && Kept() && (moved ==> ok) && ((forall p :: copies(p)) ==> ok)
      ensures !moved ==> usage == old(usage) && byDisk == old(byDisk)
      ensures ok && !moved ==> exists src :: src in usage && Settled(usage, byDisk, src, minSkew, busy)
      ensures moved && old(forall s :: s in Shards(active, byDisk) ==> 0 < s.size <= minSkew) ==> Energy(active, usage) < old(Energy(active, usage))
      ensures old(Paired(minSkew, busy, copies)) ==> Paired(minSkew, busy, copies)
      ensures old(Paired(minSkew, busy, copies)) ==>
                if old(Poised(active, usage, byDisk, minSkew)) then moved && Poised(active, usage, byDisk, minSkew)
                else moved ==> Energy(active, usage) + 2 <= old(Energy(active, usage))
    {
      hide Load, OnePerVlog, Holds, Without, Distinct, Sum, Squares, Within, Shards, Pair, Poised, Energy, Moved, Stuck, Allowed;
      var src, dst := DiskExtremes();
      ghost var before: Usage, all: Disks := usage, byDisk;
      if Paired(minSkew, busy, copies) && Poised(active, usage, byDisk, minSkew) {
        PoisedMoves(src, dst, minSkew, busy);
      }
      if usage[src] - usage[dst] <= minSkew {
        assert Settled(usage, byDisk, src, minSkew, busy);
        return false, true;
      }
      var r, at, to := RebalanceOne(src, minSkew, busy, copies);
      if r.Err? {
        return false, false;
      }
      if !r.value {
        assert Settled(usage, byDisk, src, minSkew, busy);
        return false, true;
      }
      LegalProgress(active, before, src, to, all[src][at].size, minSkew);
      ShardIn(active, all, src, at);
      if old(Paired(minSkew, busy, copies)) {
        PairStep(active, before, all, src, at, to, minSkew, busy);
      }
      return true, true;
    }

    /** Rebalance: over a whole pass of at most `cap` moves no shard is lost, the total is conserved, the spread never
        grows, the sum of squared loads never rises, and no disk ends up with two shards of a vlog. Where it stops before
        the cap without an error, the spread is within the band or nothing on the busiest disk can move.
        On two disks with nothing in the way, a pass goes on for as long as it may if and only if it comes to where the
        busier disk holds a shard as large as the gap, which half the sum of squared loads many moves decide. */
    method Rebalance(cap: nat, minSkew: int, busy: nat -> bool, copies: nat -> bool) returns (moves: nat, ok: bool)
      requires Valid()
      modifies this`usage, this`byDisk
      ensures Valid() && moves <= cap && Kept()
      ensures moves == 0 ==> usage == old(usage)
      ensures ok && moves < cap && |active| >= 2 ==> exists src :: src in usage && Settled(usage, byDisk, src, minSkew, busy)
      ensures (forall p :: copies(p)) ==> ok
      ensures old(Paired(minSkew, busy, copies) && Poised(active, usage, byDisk, minSkew)) ==> moves == cap
      ensures old(Paired(minSkew, busy, copies)) && 2 * cap > old(Energy(active, usage)) ==>
                (moves == cap <==> Poised(active, usage, byDisk, minSkew))
    {
      hide Settled, Distinct, Sum, Squares, Within, Shards, Load, OnePerVlog, Poised, Energy;
      moves, ok := 0, true;
      if |active| < 2 {
        return;
      }
      while moves < cap
        invariant Valid() && moves <= cap && Kept()
        invariant (moves == 0 ==> usage == old(usage)) && ((forall p :: copies(p)) ==> ok)
        invariant old(Paired(minSkew, busy, copies)) ==> Paired(minSkew, busy, copies)
        invariant old(Paired(minSkew, busy, copies) && Poised(active, usage, byDisk, minSkew)) ==> Poised(active, usage, byDisk, minSkew)
        invariant old(Paired(minSkew, busy, copies)) ==>
                    Poised(active, usage, byDisk, minSkew) || 2 * moves + Energy(active, usage) <= old(Energy(active, usage))
      {
        var moved;
        moved, ok := Turn(minSkew, busy, copies);
        if !moved {
          return;
        }
        moves := moves + 1;
      }
    }

    /** The pass without a move cap. It ends, settled, when no shard is empty or larger than the band. */
    method RebalanceUncapped(minSkew: int, busy: nat -> bool, copies: nat -> bool) returns (moves: nat, ok: bool)
      requires Valid() && forall s :: s in Shards(active, byDisk) ==> 0 < s.size <= minSkew
      modifies this`usage, this`byDisk
      ensures Valid() && Kept()
      ensures ok && |active| >= 2 ==> exists src :: src in usage && Settled(usage, byDisk, src, minSkew, busy)
      ensures (forall p :: copies(p)) ==> ok
    {
      hide Settled, Distinct, Sum, Squares, Within, Shards, Load, OnePerVlog, Energy;
      moves, ok := 0, true;
      if |active| < 2 {
        return;
      }
      var moved := true;
      while moved
        invariant Valid() && Kept() && ((forall p :: copies(p)) ==> ok)
        invariant ok && !moved ==> exists src :: src in usage && Settled(usage, byDisk, src, minSkew, busy)
        decreases moved, Energy(active, usage)
      {
        moved, ok := Turn(minSkew, busy, copies);
        if moved {
          moves := moves + 1;
        }
      }
    }
  }

  /** One shard on two disks, larger than the band: the pass moves it back and forth for as long as the cap lets it, so
      without a cap it would not end. */
  method LoneShardBounces(s: Shard, cap: nat, minSkew: int) returns (b: Balancer, moves: nat)
    requires 0 <= minSkew < s.size
    ensures moves == cap && b.Valid() && Shards(b.active, b.byDisk) == multiset{s}
  {
    hide Sum, Squares, Energy, Within, Settled, Holds, OnePerVlog, Shards;
    LoneLists(s);
    b := new Balancer([0, 1], map[0 := [s], 1 := []]);
    TwoLists(b.active, b.byDisk);
    assert PoisedAt(b.usage, b.byDisk, 0, 1, minSkew) by {
      assert b.byDisk[0][0].size == b.usage[0] - b.usage[1];
    }
    var ok: bool;
    moves, ok := b.Rebalance(cap, minSkew, _ => false, _ => true);
  }

  lemma LoneLists(s: Shard)
    ensures Load([s]) == s.size && OnePerVlog([s]) && OnePerVlog([]) && (s.size > 0 ==> Apart([s], []))
  {
    assert [s][1..] == [];
  }

  lemma TwoLists(active: seq<nat>, m: Disks)
    requires |active| == 2 && forall d :: d in active ==> d in m
    ensures Shards(active, m) == multiset(m[active[0]]) + multiset(m[active[1]])
  {
    assert active[1..] == [active[1]] && active[1..][1..] == [];
    assert Shards(active[1..], m) == multiset(m[active[1]]) + Shards([], m) == multiset(m[active[1]]);
  }
}
