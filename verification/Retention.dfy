/**
 Snapshot retention (meta/snapshot_retention.go): everything in the continuous window, the newest of
 each day in the daily window, the newest of each week in the weekly window, and whatever is dated in
 the future.
 */
module Retention {
  import opened Arith

  const DAY: int := 86400000000000     // 24 hours in nanoseconds
  const WEEK: int := 604800000000000

  datatype Snap = Snap(id: nat, created: int)

  datatype Policy = Policy(continuous: int, daily: int, weekly: int)

  /* ---- buckets ---- */

  /** Division that truncates toward zero. */
  function Quo(n: int, width: int): int
    requires width > 0
  {
    if n >= 0 then n / width else -((-n) / width)
  }

  function Rem(n: int, width: int): int
    requires width > 0
  {
    n - Quo(n, width) * width
  }

  function Bucket(n: int, width: int): int
    requires width > 0
  {
    if n < 0 && Rem(n, width) != 0 then Quo(n, width) - 1 else Quo(n, width)
  }

  /** Buckets are the half-open intervals anchored at zero, before the epoch as after it. */
  lemma BucketIsFloor(n: int, width: int)
    requires width > 0
    ensures Bucket(n, width) * width <= n < Bucket(n, width) * width + width
  {
  }

  /** time.Time.Sub saturates. */
  function Age(s: Snap, now: int): int {
    if now - s.created > MAX_INT64 then MAX_INT64 else now - s.created
  }

  /* ---- which snapshots stay ---- */

  /** The order in which they are listed: newest first, ties by greater id. */
  predicate Newer(a: Snap, b: Snap) {
    a.created > b.created || (a.created == b.created && a.id > b.id)
  }

  /** No newer snapshot that is not in the future shares the bucket. */
  predicate Newest(all: set<Snap>, s: Snap, width: int, now: int)
    requires width > 0
  {
    forall t :: t in all && Newer(t, s) && t.created <= now ==> Bucket(t.created, width) != Bucket(s.created, width)
  }

  predicate Kept(all: set<Snap>, s: Snap, p: Policy, now: int) {
    || s.created > now || Age(s, now) <= p.continuous
    || (Age(s, now) <= p.daily && Newest(all, s, DAY, now))
    || (Age(s, now) <= p.weekly && Newest(all, s, WEEK, now))
  }

  function Survivors(all: set<Snap>, p: Policy, now: int): set<Snap> {
    set s | s in all && Kept(all, s, p, now)
  }

  /* ---- the one pass ---- */

  predicate Before(list: seq<Snap>, i: nat, j: nat)
    requires i < |list| && j < |list|
  {
    Newer(list[i], list[j])
  }

  predicate Listed(list: seq<Snap>) {
    forall i, j :: 0 <= i < j < |list| ==> Before(list, i, j)
  }

  function Table(list: seq<Snap>): set<Snap> {
    set s | s in list
  }

  /** The buckets of the past snapshots among the first `n`. */
  ghost function Seen(list: seq<Snap>, n: nat, width: int, now: int): set<int>
    requires n <= |list| && width > 0
  {
    set i | 0 <= i < n && list[i].created <= now :: Bucket(list[i].created, width)
  }

  /** In listing order, "newest of its bucket" is "bucket not seen yet". */
  lemma SeenIsNewest(list: seq<Snap>, i: nat, width: int, now: int)
    requires Listed(list) && i < |list| && width > 0
    ensures Newest(Table(list), list[i], width, now) <==> Bucket(list[i].created, width) !in Seen(list, i, width, now)
  {
    hide Bucket;
    forall j | i < j < |list| ensures !Newer(list[j], list[i]) {
      assert Before(list, i, j);
    }
    forall j | 0 <= j < i ensures list[j] in list && Newer(list[j], list[i]) {
      assert Before(list, j, i);
    }
  }

  /** ExpireSnapshots over the listing: exactly the snapshots that are not kept are deleted, newest first. */
  method Expire(list: seq<Snap>, p: Policy, now: int) returns (expired: seq<Snap>)
    requires Listed(list)
    ensures Table(expired) == Table(list) - Survivors(Table(list), p, now)
    ensures Listed(expired)
  {
    hide Bucket, Newest, Listed;
    expired := [];
    var days: set<int>, weeks: set<int>, i := {}, {}, 0;
    ListedNone();
    while i < |list|
      invariant 0 <= i <= |list| && days == Seen(list, i, DAY, now) && weeks == Seen(list, i, WEEK, now)
      invariant forall s :: s in expired <==> exists j :: 0 <= j < i && list[j] == s && !Kept(Table(list), s, p, now)
      invariant Listed(expired)
    {
      var s := list[i];
      SeenIsNewest(list, i, DAY, now);
      SeenIsNewest(list, i, WEEK, now);
      SeenNext(list, i, DAY, now);
      SeenNext(list, i, WEEK, now);
      if s.created <= now {
        var age, day, week := Age(s, now), Bucket(s.created, DAY), Bucket(s.created, WEEK);
        var keep := age <= p.continuous || (age <= p.daily && day !in days) || (age <= p.weekly && week !in weeks);
        assert keep == Kept(Table(list), s, p, now);
        days, weeks := days + {day}, weeks + {week};
        if !keep {
          ListedSnoc(list, i, expired);
          expired := expired + [s];
        }
      }
      i := i + 1;
    }
  }

  lemma ListedNone()
    ensures Listed([])
  {
  }

  lemma ListedSnoc(list: seq<Snap>, i: nat, some: seq<Snap>)
    requires Listed(list) && i < |list| && Listed(some) && forall s :: s in some ==> exists j :: 0 <= j < i && list[j] == s
    ensures Listed(some + [list[i]])
  {
    var more := some + [list[i]];
    forall a, b | 0 <= a < b < |more| ensures Before(more, a, b) {
      if b < |some| {
        assert Before(some, a, b);
      } else {
        assert some[a] in some;
        var j :| 0 <= j < i && list[j] == some[a];
        assert Before(list, j, i);
      }
    }
  }

  lemma SeenNext(list: seq<Snap>, i: nat, width: int, now: int)
    requires i < |list| && width > 0
    ensures Seen(list, i + 1, width, now) == Seen(list, i, width, now) + if list[i].created <= now then {Bucket(list[i].created, width)} else {}
  {
  }

  /* ---- the schedule does not matter ---- */

  /** Some snapshot of a nonempty set is the newest. */
  lemma {:induction false} Leader(some: set<Snap>) returns (top: Snap)
    requires some != {}
    ensures top in some && forall t :: t in some ==> !Newer(t, top)
    decreases |some|
  {
    var x :| x in some;
    if some == {x} {
      top := x;
    } else {
      var y := Leader(some - {x});
      top := if Newer(x, y) then x else y;
      forall t | t in some ensures !Newer(t, top) {
        assert t == x || t in some - {x};
      }
    }
  }

  ghost function Rivals(all: set<Snap>, s: Snap, width: int, now: int): set<Snap>
    requires width > 0
  {
    set t | t in all && Newer(t, s) && t.created <= now && Bucket(t.created, width) == Bucket(s.created, width)
  }

  /** A snapshot displaced in the full table is displaced by one that an earlier expiry kept. */
  lemma RivalSurvives(all: set<Snap>, s: Snap, p: Policy, t1: int, t2: int, width: int)
    requires t1 <= t2 && width > 0 && (width == DAY || width == WEEK) && !Newest(all, s, width, t2)
    requires Age(s, t2) <= if width == DAY then p.daily else p.weekly
    ensures !Newest(Survivors(all, p, t1), s, width, t2)
  {
    hide Bucket;
    var rivals := Rivals(all, s, width, t2);
    var r :| r in all && Newer(r, s) && r.created <= t2 && Bucket(r.created, width) == Bucket(s.created, width);
    assert r in rivals;
    var top := Leader(rivals);
    assert Newest(all, top, width, t1) by {
      forall t | t in all && Newer(t, top) && t.created <= t1 ensures Bucket(t.created, width) != Bucket(top.created, width) {
        assert t in rivals ==> !Newer(t, top);
      }
    }
    assert Kept(all, top, p, t1);
    assert top in Survivors(all, p, t1);
  }

  lemma NewestAmongFewer(all: set<Snap>, some: set<Snap>, s: Snap, width: int, now: int)
    requires some <= all && width > 0 && Newest(all, s, width, now)
    ensures Newest(some, s, width, now)
  {
  }

  lemma NewestEarlier(all: set<Snap>, s: Snap, width: int, t1: int, t2: int)
    requires t1 <= t2 && width > 0 && Newest(all, s, width, t2)
    ensures Newest(all, s, width, t1)
  {
  }

  /** Expiring at `t1` and again at `t2` leaves exactly what expiring once at `t2` leaves. */
  lemma ScheduleIndependent(all: set<Snap>, p: Policy, t1: int, t2: int)
    requires t1 <= t2
    ensures Survivors(Survivors(all, p, t1), p, t2) == Survivors(all, p, t2)
  {
    hide Bucket, Newest;
    var once := Survivors(all, p, t1);
    forall s | s in all ensures s in once && Kept(once, s, p, t2) <==> Kept(all, s, p, t2) {
      if Kept(all, s, p, t2) {
        if Newest(all, s, DAY, t2) {
          NewestAmongFewer(all, once, s, DAY, t2);
          NewestEarlier(all, s, DAY, t1, t2);
        }
        if Newest(all, s, WEEK, t2) {
          NewestAmongFewer(all, once, s, WEEK, t2);
          NewestEarlier(all, s, WEEK, t1, t2);
        }
      } else {
        if Age(s, t2) <= p.daily {
          RivalSurvives(all, s, p, t1, t2, DAY);
        }
        if Age(s, t2) <= p.weekly {
          RivalSurvives(all, s, p, t1, t2, WEEK);
        }
      }
    }
  }
}
