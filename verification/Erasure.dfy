/**
 Erasure-coded virtual logs (storage/vlog.go, storage/verify.go): whole stripe rows of `d` data
 columns and `p` parity columns, one backing log per column.
 */
module Erasure {
  import opened Arith
  import opened Bytes
  import opened Results
  import Mirror

  /** A systematic code over columns of `w` bytes. Its two operations are library code. */
  datatype Code = Code(d: nat, p: nat, w: nat, parity: seq<Bytes> -> seq<Bytes>, rebuild: seq<Option<Bytes>> -> seq<Bytes>) {
    function N(): nat { d + p }

    function Stripe(): nat { d * w }
  }

  predicate Columns(cols: seq<Bytes>, n: nat, w: nat) {
    |cols| == n && forall c :: 0 <= c < n ==> |cols[c]| == w
  }

  /** The codeword of a row. */
  function Encode(k: Code, row: seq<Bytes>): seq<Bytes> {
    row + k.parity(row)
  }

  /** The columns of a codeword that arrived. */
  function Pick(cols: seq<Bytes>, got: set<nat>): seq<Option<Bytes>> {
    seq(|cols|, c requires 0 <= c < |cols| => if c in got then Some(cols[c]) else None)
  }

  /** Parity has the right shape. */
  ghost predicate Shaped(k: Code) {
    && k.d > 0 && k.w > 0
    && forall row: seq<Bytes> :: Columns(row, k.d, k.w) ==> Columns(k.parity(row), k.p, k.w)
  }

  /** These columns determine the codeword. */
  predicate Determines(k: Code, row: seq<Bytes>, got: set<nat>) {
    k.rebuild(Pick(Encode(k, row), got)) == Encode(k, row)
  }

  /** Any `d` columns do. */
  ghost predicate Sound(k: Code) {
    && Shaped(k)
    && forall row: seq<Bytes>, got: set<nat> :: Columns(row, k.d, k.w) && |got| >= k.d && got <= Mirror.Ids(k.N()) ==> Determines(k, row, got)
  }

  /* ---- addresses ---- */

  /** Column `c` of the bytes of one row. */
  lemma ColumnFits(k: Code, c: nat)
    requires c < k.d
    ensures c * k.w + k.w <= k.Stripe()
  {
    MulLe(c + 1, k.d, k.w);
  }

  function Column(row: Bytes, w: nat, c: nat): Bytes {
    if c * w + w <= |row| then row[c * w..c * w + w] else []
  }

  function Split(k: Code, row: Bytes): seq<Bytes> {
    seq(k.d, c requires 0 <= c < k.d => Column(row, k.w, c))
  }

  lemma SplitAt(k: Code, row: Bytes, c: nat)
    requires |row| == k.Stripe() && c < k.d
    ensures c * k.w + k.w <= |row| && Split(k, row)[c] == row[c * k.w..c * k.w + k.w]
  {
    ColumnFits(k, c);
  }

  lemma SplitColumns(k: Code, row: Bytes)
    requires |row| == k.Stripe()
    ensures Columns(Split(k, row), k.d, k.w)
  {
    forall c | 0 <= c < k.d ensures |Split(k, row)[c]| == k.w {
      SplitAt(k, row, c);
    }
  }

  /** The bytes of row `r` of a stream of rows of `stripe` bytes. */
  predicate HasRow(all: Bytes, stripe: nat, r: nat) {
    r * stripe + stripe <= |all|
  }

  function RowBytes(all: Bytes, stripe: nat, r: nat): (row: Bytes)
    requires HasRow(all, stripe, r)
    ensures |row| == stripe
  {
    all[r * stripe..r * stripe + stripe]
  }

  /** The codeword of row `r`. */
  function Word(k: Code, all: Bytes, r: nat): seq<Bytes>
    requires HasRow(all, k.Stripe(), r)
  {
    Encode(k, Split(k, RowBytes(all, k.Stripe(), r)))
  }

  /** A backing log holds `column` at row `r`. */
  predicate HoldsColumn(shard: Bytes, w: nat, r: nat, column: Bytes) {
    r * w + w <= |shard| && shard[r * w..r * w + w] == column
  }

  predicate WordHeld(shards: seq<Bytes>, w: nat, r: nat, word: seq<Bytes>) {
    |word| == |shards| && forall c :: 0 <= c < |shards| ==> HoldsColumn(shards[c], w, r, word[c])
  }

  /** Every backing log holds its columns of all rows of `all`; behind them may lie what a failed append left. */
  ghost predicate Striped(k: Code, shards: seq<Bytes>, all: Bytes) {
    |shards| == k.N() && forall r: nat :: HasRow(all, k.Stripe(), r) ==> WordHeld(shards, k.w, r, Word(k, all, r))
  }

  /** Where a byte of a row lies: its column and the place in it. */
  lemma Address(k: Code, x: nat)
    requires k.w > 0 && x < k.Stripe()
    ensures x / k.w < k.d && x == x / k.w * k.w + x % k.w
  {
  }

  lemma RowBound(r: nat, n: nat, stripe: nat)
    requires stripe > 0
    ensures r * stripe + stripe <= n * stripe <==> r < n
  {
    if r < n {
      MulLe(r + 1, n, stripe);
    } else {
      MulLe(n, r, stripe);
    }
  }

  lemma WordColumns(k: Code, row: Bytes)
    requires Shaped(k) && |row| == k.Stripe()
    ensures Columns(Encode(k, Split(k, row)), k.N(), k.w)
  {
    SplitColumns(k, row);
    assert Columns(k.parity(Split(k, row)), k.p, k.w);
  }

  /* ---- appending rows ---- */

  /** How one shard's append of one column ends. */
  datatype Fate = Lands | LandsUnreported | Lost

  ghost predicate Grew(a: seq<Bytes>, b: seq<Bytes>) {
    |a| == |b| && forall c :: 0 <= c < |a| ==> a[c] <= b[c]
  }

  /** All shards are equally long: no failed attempt left anything behind. */
  ghost predicate Level(shards: seq<Bytes>, len: nat) {
    forall c :: 0 <= c < |shards| ==> |shards[c]| == len
  }

  /** What one shard's append makes of its log, and whether it reports success. A client that cannot place bytes
      (`blind`) appends them wherever its log ends and complains afterwards. */
  function PutOne(shard: Bytes, at: nat, column: Bytes, fate: Fate, blind: bool): (Bytes, bool) {
    if fate.Lost? then (shard, false)
    else if blind then (shard + column, fate.Lands? && |shard| == at)
    else
      var placed := Mirror.Ensure(shard, at, column);
      if placed.None? then (shard, false) else (placed.value, fate.Lands?)
  }

  lemma PutOneMeaning(shard: Bytes, w: nat, r: nat, column: Bytes, fate: Fate, blind: bool)
    requires |column| == w
    ensures var put := PutOne(shard, r * w, column, fate, blind);
            shard <= put.0 && (put.1 ==> HoldsColumn(put.0, w, r, column))
  {
  }

  /** An append of an earlier fan-out that gave up while it was still running. */
  datatype Straggler = Straggler(at: nat, column: Bytes, blind: bool)

  /** What a shard's log is once such appends have landed. */
  function Land(shard: Bytes, late: seq<Straggler>): Bytes {
    if late == [] then shard
    else
      var n := |late| - 1;
      PutOne(Land(shard, late[..n]), late[n].at, late[n].column, Lands, late[n].blind).0
  }

  lemma {:induction false} LandGrows(shard: Bytes, late: seq<Straggler>)
    ensures shard <= Land(shard, late)
  {
    if late != [] {
      LandGrows(shard, late[..|late| - 1]);
    }
  }

  /** One shard's part of a fan-out, with the stragglers that come first. */
  function PutLate(shard: Bytes, late: seq<Straggler>, at: nat, column: Bytes, fate: Fate, blind: bool): (Bytes, bool) {
    PutOne(Land(shard, late), at, column, fate, blind)
  }

  /** One fan-out of a row: shard `c` gets column `c` at the row's place, behind whatever stragglers land there first. It
      succeeds only when all do; shards that were reached keep what they got. */
  method PutRow(shards: seq<Bytes>, w: nat, r: nat, word: seq<Bytes>, fate: nat -> Fate, blind: set<nat>, late: nat -> seq<Straggler>)
    returns (after: seq<Bytes>, ok: bool)
    requires Columns(word, |shards|, w)
    ensures Grew(shards, after)
    ensures ok ==> WordHeld(after, w, r, word)
    ensures forall c :: 0 <= c < |shards| ==> after[c] == PutLate(shards[c], late(c), r * w, word[c], fate(c), c in blind).0
    ensures ok <==> forall c :: 0 <= c < |shards| ==> PutLate(shards[c], late(c), r * w, word[c], fate(c), c in blind).1
  {
    hide PutOne, PutLate, HoldsColumn;
    after, ok := [], true;
    var c, at := 0, r * w;
    while c < |shards|
      invariant 0 <= c <= |shards| && |after| == c && at == r * w
      invariant forall i :: 0 <= i < c ==> after[i] == PutLate(shards[i], late(i), at, word[i], fate(i), i in blind).0
      invariant ok <==> forall i :: 0 <= i < c ==> PutLate(shards[i], late(i), at, word[i], fate(i), i in blind).1
    {
      var put := PutLate(shards[c], late(c), at, word[c], fate(c), c in blind);
      after := after + [put.0];
      ok := ok && put.1;
      c := c + 1;
    }
    forall i | 0 <= i < |shards|
      ensures shards[i] <= after[i] && (PutLate(shards[i], late(i), at, word[i], fate(i), i in blind).1 ==> HoldsColumn(after[i], w, r, word[i]))
    {
      PutLateMeaning(shards[i], late(i), w, r, word[i], fate(i), i in blind);
    }
  }

  lemma PutLateMeaning(shard: Bytes, late: seq<Straggler>, w: nat, r: nat, column: Bytes, fate: Fate, blind: bool)
    requires |column| == w
    ensures var put := PutLate(shard, late, r * w, column, fate, blind);
            shard <= put.0 && (put.1 ==> HoldsColumn(put.0, w, r, column))
  {
    hide PutOne, HoldsColumn;
    LandGrows(shard, late);
    PutOneMeaning(Land(shard, late), w, r, column, fate, blind);
  }

  /* ---- repeating a failed append ---- */

  /** The shard holds its columns of `rows` rows of `all`, and nothing else. */
  ghost predicate HoldsRows(k: Code, shard: Bytes, c: nat, all: Bytes, rows: nat) {
    && |shard| == rows * k.w
    && forall r: nat :: r < rows ==> HasRow(all, k.Stripe(), r) && c < |Word(k, all, r)| && HoldsColumn(shard, k.w, r, Word(k, all, r)[c])
  }

  /** At least the first `from` rows. */
  ghost predicate Ahead(k: Code, shard: Bytes, c: nat, all: Bytes, from: nat) {
    exists rows: nat :: from <= rows && HoldsRows(k, shard, c, all, rows)
  }

  ghost predicate AllAhead(k: Code, shards: seq<Bytes>, all: Bytes, from: nat) {
    forall c :: 0 <= c < |shards| ==> Ahead(k, shards[c], c, all, from)
  }

  /** One more column behind the ones that are there. */
  lemma HoldsMore(k: Code, shard: Bytes, c: nat, all: Bytes, rows: nat, column: Bytes)
    requires HoldsRows(k, shard, c, all, rows) && HasRow(all, k.Stripe(), rows)
    requires c < |Word(k, all, rows)| && column == Word(k, all, rows)[c] && |column| == k.w
    ensures HoldsRows(k, shard + column, c, all, rows + 1)
  {
    hide Word, HasRow;
    var w, next := k.w, shard + column;
    assert (rows + 1) * w == rows * w + w;
    forall i: nat | i < rows + 1 ensures HasRow(all, k.Stripe(), i) && c < |Word(k, all, i)| && HoldsColumn(next, w, i, Word(k, all, i)[c]) {
      if i < rows {
        var at := i * w;
        MulLe(i + 1, rows, w);
        assert at + w <= |shard|;
        assert HoldsColumn(shard, w, i, Word(k, all, i)[c]);
        assert next[at..at + w] == shard[at..at + w];
      }
    }
  }

  /** Placing bytes where they are already, or at the end. */
  lemma EnsureThere(shard: Bytes, at: nat, column: Bytes)
    ensures at + |column| <= |shard| && shard[at..at + |column|] == column ==> Mirror.Ensure(shard, at, column) == Some(shard)
    ensures at == |shard| ==> Mirror.Ensure(shard, at, column) == Some(shard + column)
  {
    assert shard[|shard|..] == [] == column[..0] && column[0..] == column;
    assert column == [] ==> shard + column == shard && shard[|shard|..|shard|] == column;
  }

  /** The next column is appended, or found where it belongs. */
  lemma PutAhead(k: Code, shard: Bytes, c: nat, all: Bytes, r: nat, fate: Fate)
    requires k.w > 0 && HasRow(all, k.Stripe(), r) && c < |Word(k, all, r)| && |Word(k, all, r)[c]| == k.w && Ahead(k, shard, c, all, r)
    ensures var put := PutOne(shard, r * k.w, Word(k, all, r)[c], fate, false);
            && Ahead(k, put.0, c, all, r) && (put.1 ==> Ahead(k, put.0, c, all, r + 1)) && (fate.Lands? ==> put.1)
  {
    hide Word, HasRow, HoldsRows, Mirror.Ensure;
    var w, column, at := k.w, Word(k, all, r)[c], r * k.w;
    var rows: nat :| r <= rows && HoldsRows(k, shard, c, all, rows);
    EnsureThere(shard, at, column);
    if rows > r {
      RowThere(k, shard, c, all, rows, r);
      assert Ahead(k, shard, c, all, r + 1);
    } else {
      RowsLong(k, shard, c, all, rows);
      HoldsMore(k, shard, c, all, r, column);
      assert Ahead(k, shard + column, c, all, r + 1) && Ahead(k, shard + column, c, all, r);
    }
  }

  /** An append of one of these very rows. */
  ghost predicate OwnRow(k: Code, c: nat, all: Bytes, t: Straggler, r: nat) {
    HasRow(all, k.Stripe(), r) && c < |Word(k, all, r)| && |Word(k, all, r)[c]| == k.w && t == Straggler(r * k.w, Word(k, all, r)[c], false)
  }

  ghost predicate OwnOne(k: Code, c: nat, all: Bytes, t: Straggler) {
    exists r: nat :: OwnRow(k, c, all, t, r)
  }

  ghost predicate Own(k: Code, c: nat, all: Bytes, late: seq<Straggler>) {
    forall i :: 0 <= i < |late| ==> OwnOne(k, c, all, late[i])
  }

  /** Such a straggler finds its column, appends it, or is refused for the gap before it. */
  lemma StragglerAhead(k: Code, shard: Bytes, c: nat, all: Bytes, from: nat, t: Straggler, r: nat)
    requires k.w > 0 && OwnRow(k, c, all, t, r) && Ahead(k, shard, c, all, from)
    ensures Ahead(k, PutOne(shard, t.at, t.column, Lands, t.blind).0, c, all, from)
  {
    hide Word, HasRow, HoldsRows, Mirror.Ensure;
    var rows: nat :| from <= rows && HoldsRows(k, shard, c, all, rows);
    RowsLong(k, shard, c, all, rows);
    if r <= rows {
      assert Ahead(k, shard, c, all, r);
      PutKeeps(k, shard, c, all, rows, r);
    } else {
      MulLe(rows + 1, r, k.w);
      EnsureGap(shard, t.at, t.column);
    }
  }

  lemma PutKeeps(k: Code, shard: Bytes, c: nat, all: Bytes, rows: nat, r: nat)
    requires k.w > 0 && HasRow(all, k.Stripe(), r) && c < |Word(k, all, r)| && |Word(k, all, r)[c]| == k.w
    requires r <= rows && HoldsRows(k, shard, c, all, rows)
    ensures Ahead(k, PutOne(shard, r * k.w, Word(k, all, r)[c], Lands, false).0, c, all, rows)
  {
    hide Word, HasRow, HoldsRows, Mirror.Ensure;
    var column := Word(k, all, r)[c];
    EnsureThere(shard, r * k.w, column);
    if rows > r {
      RowThere(k, shard, c, all, rows, r);
    } else {
      RowsLong(k, shard, c, all, rows);
      HoldsMore(k, shard, c, all, r, column);
    }
  }

  lemma EnsureGap(shard: Bytes, at: nat, column: Bytes)
    requires at > |shard|
    ensures Mirror.Ensure(shard, at, column).None?
  {
  }

  lemma SettledAlready(k: Code, shards: seq<Bytes>, all: Bytes, n: nat, c: nat, t: Straggler)
    requires Sound(k) && k.Stripe() > 0 && |all| == n * k.Stripe() && Striped(k, shards, all) && c < |shards| && Own(k, c, all, [t])
    ensures Land(shards[c], [t]) == shards[c]
  {
    hide Word, HasRow, Mirror.Ensure;
    assert OwnOne(k, c, all, [t][0]) && [t][..0] == [];
    var r: nat :| OwnRow(k, c, all, t, r);
    assert WordHeld(shards, k.w, r, Word(k, all, r));
    EnsureThere(shards[c], t.at, t.column);
  }

  lemma {:induction false} LandAhead(k: Code, shard: Bytes, c: nat, all: Bytes, from: nat, late: seq<Straggler>)
    requires k.w > 0 && Own(k, c, all, late) && Ahead(k, shard, c, all, from)
    ensures Ahead(k, Land(shard, late), c, all, from)
  {
    hide Ahead, OwnRow, PutOne;
    if late != [] {
      var n := |late| - 1;
      assert Own(k, c, all, late[..n]);
      LandAhead(k, shard, c, all, from, late[..n]);
      assert OwnOne(k, c, all, late[n]);
      var r: nat :| OwnRow(k, c, all, late[n], r);
      StragglerAhead(k, Land(shard, late[..n]), c, all, from, late[n], r);
    }
  }

  lemma RowThere(k: Code, shard: Bytes, c: nat, all: Bytes, rows: nat, r: nat)
    requires HoldsRows(k, shard, c, all, rows) && r < rows
    ensures HasRow(all, k.Stripe(), r) && c < |Word(k, all, r)| && HoldsColumn(shard, k.w, r, Word(k, all, r)[c])
  {
  }

  lemma RowsLong(k: Code, shard: Bytes, c: nat, all: Bytes, rows: nat)
    requires HoldsRows(k, shard, c, all, rows)
    ensures |shard| == rows * k.w
  {
  }

  /** Shards that hold all rows and no more are equally long. */
  lemma AheadLevel(k: Code, shards: seq<Bytes>, all: Bytes, n: nat)
    requires k.w > 0 && k.Stripe() > 0 && |all| == n * k.Stripe() && AllAhead(k, shards, all, n)
    ensures Level(shards, n * k.w)
  {
    forall c | 0 <= c < |shards| ensures |shards[c]| == n * k.w {
      var rows: nat :| n <= rows && HoldsRows(k, shards[c], c, all, rows);
      RowBound(n, n, k.Stripe());
      assert n < rows ==> HasRow(all, k.Stripe(), n);
    }
  }

  /** A log no failed append has touched is ready for any further rows. */
  lemma LevelAhead(k: Code, shards: seq<Bytes>, all: Bytes, data: Bytes, n: nat)
    requires Sound(k) && k.Stripe() > 0 && |all| == n * k.Stripe() && Striped(k, shards, all) && Level(shards, n * k.w)
    ensures AllAhead(k, shards, all + data, n)
  {
    forall c | 0 <= c < |shards| ensures Ahead(k, shards[c], c, all + data, n) {
      forall r: nat | r < n ensures HasRow(all + data, k.Stripe(), r) && c < |Word(k, all + data, r)| && HoldsColumn(shards[c], k.w, r, Word(k, all + data, r)[c]) {
        RowBound(r, n, k.Stripe());
        assert RowBytes(all + data, k.Stripe(), r) == RowBytes(all, k.Stripe(), r);
        assert WordHeld(shards, k.w, r, Word(k, all, r));
      }
      assert HoldsRows(k, shards[c], c, all + data, n);
    }
  }

  lemma GrewStriped(k: Code, a: seq<Bytes>, b: seq<Bytes>, all: Bytes)
    requires Grew(a, b) && Striped(k, a, all)
    ensures Striped(k, b, all)
  {
  }

  /** One more row. */
  lemma StripedRow(k: Code, shards: seq<Bytes>, all: Bytes, row: Bytes, n: nat)
    requires k.Stripe() > 0 && |all| == n * k.Stripe() && |row| == k.Stripe()
    requires Striped(k, shards, all) && WordHeld(shards, k.w, n, Encode(k, Split(k, row)))
    ensures Striped(k, shards, all + row) && |all + row| == (n + 1) * k.Stripe()
  {
    var stripe := k.Stripe();
    assert (n + 1) * stripe == n * stripe + stripe;
    forall r: nat | HasRow(all + row, stripe, r) ensures WordHeld(shards, k.w, r, Word(k, all + row, r)) {
      RowBound(r, n, stripe);
      RowBound(r, n + 1, stripe);
      if r < n {
        assert RowBytes(all + row, stripe, r) == RowBytes(all, stripe, r);
        assert WordHeld(shards, k.w, r, Word(k, all, r));
      } else {
        assert r == n && RowBytes(all + row, stripe, n) == row;
      }
    }
  }

  /** The row loop of an append: `n` rows are there already, `data` is `m` rows. Where every shard is already some way into
      these very rows, each row is found or appended. */
  method PutRows(k: Code, shards: seq<Bytes>, ghost all: Bytes, n: nat, data: Bytes, m: nat, fate: (nat, nat) -> Fate, blind: set<nat>, late: (nat, nat) -> seq<Straggler>)
    returns (after: seq<Bytes>, ok: bool)
    requires Shaped(k) && k.Stripe() > 0 && |all| == n * k.Stripe() && |data| == m * k.Stripe()
    requires Striped(k, shards, all)
    ensures Striped(k, after, all)
    ensures ok ==> Striped(k, after, all + data)
    ensures blind == {} && AllAhead(k, shards, all + data, n) && AllOwn(k, all + data, late) ==>
              && AllAhead(k, after, all + data, n) && (RowsLand(fate, n, m, k.N()) ==> ok) && (ok ==> AllAhead(k, after, all + data, n + m))
  {
    hide Ahead, Word, WordHeld;
    after, ok := shards, true;
    var stripe, i, at := k.Stripe(), 0, 0;
    ghost var have, ready := all, blind == {} && AllAhead(k, shards, all + data, n) && AllOwn(k, all + data, late);
    assert data[..0] == [] && all + [] == all;
    while i < m
      invariant 0 <= i <= m && at == i * stripe <= |data| && have == all + data[..at]
      invariant |have| == (n + i) * stripe
      invariant Striped(k, after, have) && Striped(k, after, all)
      invariant ready ==> AllAhead(k, after, all + data, n + i) && AllAhead(k, after, all + data, n)
    {
      MulLe(i + 1, m, stripe);
      assert (i + 1) * stripe == at + stripe;
      var row := data[at..at + stripe];
      ghost var before := after;
      after, ok := AppendRow(k, after, have, n + i, row, all + data, fate, blind, late);
      GrewStriped(k, before, after, all);
      if ready {
        AheadLess(k, after, all + data, n + i, n);
      }
      if !ok {
        return;
      }
      assert data[..at + stripe] == data[..at] + row;
      have := have + row;
      i, at := i + 1, at + stripe;
    }
    assert data[..at] == data;
  }

  lemma AheadLess(k: Code, shards: seq<Bytes>, all: Bytes, from: nat, less: nat)
    requires less <= from
    ensures AllAhead(k, shards, all, from) ==> AllAhead(k, shards, all, less)
  {
    if AllAhead(k, shards, all, from) {
      forall c | 0 <= c < |shards| ensures Ahead(k, shards[c], c, all, less) {
        assert Ahead(k, shards[c], c, all, from);
      }
    }
  }

  ghost predicate AllOwn(k: Code, all: Bytes, late: (nat, nat) -> seq<Straggler>) {
    forall r: nat, c: nat :: Own(k, c, all, late(r, c))
  }

  lemma PutLateAhead(k: Code, shard: Bytes, late: seq<Straggler>, c: nat, all: Bytes, r: nat, fate: Fate)
    requires k.w > 0 && HasRow(all, k.Stripe(), r) && c < |Word(k, all, r)| && |Word(k, all, r)[c]| == k.w
    requires Ahead(k, shard, c, all, r) && Own(k, c, all, late)
    ensures var put := PutLate(shard, late, r * k.w, Word(k, all, r)[c], fate, false);
            && Ahead(k, put.0, c, all, r) && (put.1 ==> Ahead(k, put.0, c, all, r + 1)) && (fate.Lands? ==> put.1)
  {
    hide Ahead, Own, PutOne, Word, HasRow;
    LandAhead(k, shard, c, all, r, late);
    PutAhead(k, Land(shard, late), c, all, r, fate);
  }

  ghost predicate RowsLand(fate: (nat, nat) -> Fate, n: nat, m: nat, shards: nat) {
    forall r, c :: n <= r < n + m && 0 <= c < shards ==> fate(r, c).Lands?
  }

  ghost predicate RowLands(fate: (nat, nat) -> Fate, r: nat, shards: nat) {
    forall c :: 0 <= c < shards ==> fate(r, c).Lands?
  }

  /** Row `r` of the stream `whole`. */
  method AppendRow(k: Code, shards: seq<Bytes>, ghost have: Bytes, r: nat, row: Bytes, ghost whole: Bytes, fate: (nat, nat) -> Fate, blind: set<nat>, late: (nat, nat) -> seq<Straggler>)
    returns (after: seq<Bytes>, ok: bool)
    requires Shaped(k) && k.Stripe() > 0 && |have| == r * k.Stripe() && |row| == k.Stripe() && Striped(k, shards, have) && have + row <= whole
    ensures Grew(shards, after)
    ensures ok ==> Striped(k, after, have + row) && |have + row| == (r + 1) * k.Stripe()
    ensures blind == {} && AllAhead(k, shards, whole, r) && AllOwn(k, whole, late) ==>
              && AllAhead(k, after, whole, r) && (RowLands(fate, r, k.N()) ==> ok) && (ok ==> AllAhead(k, after, whole, r + 1))
  {
    hide Ahead, PutOne, PutLate, WordHeld, Own;
    WordColumns(k, row);
    var word := Encode(k, Split(k, row));
    after, ok := PutRow(shards, k.w, r, word, (c: nat) => fate(r, c), blind, (c: nat) => late(r, c));
    if blind == {} && AllAhead(k, shards, whole, r) && AllOwn(k, whole, late) {
      assert (r + 1) * k.Stripe() == r * k.Stripe() + k.Stripe();
      assert RowBytes(whole, k.Stripe(), r) == row;
      forall c | 0 <= c < |shards|
        ensures Ahead(k, after[c], c, whole, r) && (RowLands(fate, r, k.N()) ==> PutLate(shards[c], late(r, c), r * k.w, word[c], fate(r, c), c in blind).1)
        ensures PutLate(shards[c], late(r, c), r * k.w, word[c], fate(r, c), c in blind).1 ==> Ahead(k, after[c], c, whole, r + 1)
      {
        PutLateAhead(k, shards[c], late(r, c), c, whole, r, fate(r, c));
      }
    }
    if ok {
      GrewStriped(k, shards, after, have);
      StripedRow(k, after, have, row, r);
    }
  }

  /* ---- reading rows back ---- */

  /** Which reads succeed, and the order in which the columns of a row arrive when all are asked for. */
  datatype World = World(direct: (nat, nat) -> bool, full: (nat, nat) -> bool, order: nat -> seq<nat>)

  /** All columns answer once. */
  ghost predicate Arrival(order: seq<nat>, n: nat) {
    && |order| == n && (forall c: nat :: c < n ==> c in order)
    && (forall i :: 0 <= i < n ==> order[i] < n) && Mirror.Distinct(Answers(order, _ => true))
  }

  function Answers(order: seq<nat>, ok: nat -> bool): seq<Mirror.Report> {
    seq(|order|, i requires 0 <= i < |order| => Mirror.Report(0, order[i], ok(order[i])))
  }

  /** The columns of the row that can be read in full. */
  ghost function Readable(world: World, row: nat, n: nat): set<nat> {
    set c | c in Mirror.Ids(n) && world.full(row, c)
  }

  lemma {:induction false} WinsOf(reports: seq<Mirror.Report>, r: nat)
    ensures r in Mirror.Wins(reports) <==> exists i :: 0 <= i < |reports| && reports[i].ok && reports[i].replica == r
  {
    if reports != [] {
      var n := |reports| - 1;
      WinsOf(reports[..n], r);
      assert forall i :: 0 <= i < n ==> reports[..n][i] == reports[i];
    }
  }

  lemma AnswersDistinct(order: seq<nat>, ok: nat -> bool, ok': nat -> bool)
    requires Mirror.Distinct(Answers(order, ok))
    ensures Mirror.Distinct(Answers(order, ok'))
  {
    forall i, j | 0 <= i < j < |order| ensures Mirror.Differ(Answers(order, ok'), i, j) {
      assert Mirror.Differ(Answers(order, ok), i, j);
    }
  }

  lemma AnswersWin(order: seq<nat>, n: nat, ok: nat -> bool)
    requires Arrival(order, n)
    ensures Mirror.Wins(Answers(order, ok)) == (set c | c in Mirror.Ids(n) && ok(c))
  {
    var said := Answers(order, ok);
    forall c: nat ensures c in Mirror.Wins(said) <==> c < n && ok(c) {
      WinsOf(said, c);
      if c < n {
        assert c in order;
        var i :| 0 <= i < |order| && order[i] == c;
        assert said[i].replica == c;
      }
    }
  }

  /** The columns that arrived, as far as they were waited for. */
  function Collected(shards: seq<Bytes>, w: nat, r: nat, got: set<nat>): seq<Option<Bytes>> {
    seq(|shards|, c requires 0 <= c < |shards| => if c in got && r * w + w <= |shards[c]| then Some(shards[c][r * w..r * w + w]) else None)
  }

  lemma CollectedIsPick(shards: seq<Bytes>, w: nat, r: nat, word: seq<Bytes>, got: set<nat>)
    requires WordHeld(shards, w, r, word)
    ensures Collected(shards, w, r, got) == Pick(word, got)
  {
  }

  /** The columns of the row that cannot. */
  ghost function Failing(world: World, row: nat, n: nat): set<nat> {
    set c | c in Mirror.Ids(n) && !world.full(row, c)
  }

  lemma ReadableOrFailing(world: World, row: nat, n: nat)
    ensures |Readable(world, row, n)| + |Failing(world, row, n)| == n
  {
    assert Readable(world, row, n) + Failing(world, row, n) == Mirror.Ids(n);
    assert Readable(world, row, n) !! Failing(world, row, n);
  }

  /** A run of row bytes inside one column, read from that column of the codeword or from the log that holds it. */
  lemma RunInColumn(k: Code, shard: Bytes, r: nat, row: Bytes, column: Bytes, c: nat, pos: nat, n: nat)
    requires |row| == k.Stripe() && c < k.d && pos + n <= k.w && c < |Split(k, row)| && column == Split(k, row)[c]
    requires HoldsColumn(shard, k.w, r, column)
    ensures |column| == k.w
    ensures r * k.w + pos + n <= |shard| && shard[r * k.w + pos..r * k.w + pos + n] == column[pos..pos + n]
  {
    SplitAt(k, row, c);
    SliceOfSlice(shard, r * k.w, k.w, pos, n);
  }

  /** The column a byte of the row lies in, its place there, and how far the range goes on in that column. */
  method Place(k: Code, cur: nat, b: nat) returns (col: nat, pos: nat, n: nat)
    requires k.w > 0 && cur < b <= k.Stripe()
    ensures col < k.d && pos + n <= k.w && cur == col * k.w + pos && 0 < n <= b - cur
  {
    col, pos := cur / k.w, cur % k.w;
    n := if cur + (k.w - pos) > b then b - cur else k.w - pos;
    Address(k, cur);
  }

  lemma WordRun(k: Code, row: Bytes, c: nat, pos: nat, n: nat)
    requires |row| == k.Stripe() && c < k.d && pos + n <= k.w
    ensures var word := Encode(k, Split(k, row));
            && c < |word| && word[c] == Split(k, row)[c] && |word[c]| == k.w && c * k.w + pos + n <= |row|
            && word[c][pos..pos + n] == row[c * k.w + pos..c * k.w + pos + n]
  {
    SplitAt(k, row, c);
    SliceOfSlice(row, c * k.w, k.w, pos, n);
  }

  lemma RowInside(x: nat, len: nat, stripe: nat)
    requires stripe > 0 && x < len && len % stripe == 0
    ensures x / stripe * stripe <= x < x / stripe * stripe + stripe <= len
  {
    var r, q := x / stripe, len / stripe;
    Whole(len, stripe);
    if r >= q {
      MulLe(q, r, stripe);
      assert false;
    }
    RowBound(r, q, stripe);
  }

  /** The row a byte lies in, where that row starts, and how far the range goes on in it. */
  method RowPlace(cur: nat, end: nat, len: nat, stripe: nat) returns (row: nat, start: nat, stop: nat)
    requires stripe > 0 && cur < end <= len && len % stripe == 0
    ensures start == row * stripe && start <= cur < stop <= end && stop <= start + stripe <= len
  {
    row := cur / stripe;
    start := row * stripe;
    stop := if start + stripe > end then end else start + stripe;
    RowInside(cur, len, stripe);
  }

  class EcVlog {
    const k: Code
    var length: nat
    var shards: seq<Bytes>
    ghost var written: Bytes

    ghost predicate Valid()
      reads this
    {
      Sound(k) && k.Stripe() > 0 && length == |written| && length % k.Stripe() == 0 && Striped(k, shards, written)
    }

    /** No failed append has left rows behind. */
    ghost predicate Tidy()
      requires k.Stripe() > 0
      reads this
    {
      Level(shards, length / k.Stripe() * k.w)
    }

    /** Every shard is exactly some way into the rows of `data`: nothing but attempts at these rows has failed. */
    ghost predicate Ready(data: Bytes)
      requires k.Stripe() > 0
      reads this
    {
      AllAhead(k, shards, written + data, length / k.Stripe())
    }

    lemma TidyIsReady(data: Bytes)
      requires Valid() && Tidy()
      ensures Ready(data)
    {
      Whole(length, k.Stripe());
      LevelAhead(k, shards, written, data, length / k.Stripe());
    }

    /** writeWithin on an erasure-coded log: whole rows only. Either all of `data` is appended, or the log is what it
        was, with rows a failed attempt left behind lying unreachable above its end. Appends of earlier attempts that are
        still running when their fan-out has failed may land between any two columns. Repeating the same rows after any
        number of failed attempts, with nothing but those attempts' appends still running, succeeds once every shard is
        reached, and leaves the log as one append would. */
    method Write(data: Bytes, max: int, fate: (nat, nat) -> Fate, blind: set<nat>, late: (nat, nat) -> seq<Straggler>) returns (r: Result<nat>)
      requires Valid()
      modifies this
      ensures Valid()
      ensures r.Ok? ==> r.value == old(length) && written == old(written) + data
      ensures r.Err? ==> written == old(written)
      ensures data != [] && |data| % k.Stripe() != 0 ==> r.Err?
      ensures max >= 0 && old(length) + |data| > max ==> r.Err?
      ensures blind == {} && old(Ready(data) && AllOwn(k, written + data, late)) ==> if r.Err? then Ready(data) else data != [] ==> Tidy()
      ensures blind == {} && old(Ready(data) && AllOwn(k, written + data, late)) && (forall row, c :: fate(row, c).Lands?) ==>
                (r.Ok? <==> |data| % k.Stripe() == 0 && !(max >= 0 && old(length) + |data| > max))
    {
      hide Ahead, AllOwn, Striped, Level;
      if max >= 0 && (|data| > max || length > max - |data|) {
        return Err;
      }
      if data == [] {
        return Ok(length);
      }
      if |data| % k.Stripe() != 0 {
        return Err;
      }
      var offset, stripe := length, k.Stripe();
      Whole(length, stripe);
      Whole(|data|, stripe);
      var ok;
      shards, ok := PutRows(k, shards, written, length / stripe, data, |data| / stripe, fate, blind, late);
      if !ok {
        return Err;
      }
      AddWhole(length, |data|, stripe);
      AddRows(length, |data|, stripe);
      length, written := length + |data|, written + data;
      if blind == {} && old(Ready(data) && AllOwn(k, written + data, late)) {
        AheadLevel(k, shards, written, length / stripe);
      }
      return Ok(offset);
    }

    /** An append of a failed attempt landing between two calls: what was written stays, rows that were ready to be
        repeated stay so if it is one of theirs, and on a log that holds its row already nothing changes. */
    method Settle(c: nat, t: Straggler)
      requires Valid() && c < |shards|
      modifies this`shards
      ensures Valid() && Grew(old(shards), shards) && forall i :: 0 <= i < |shards| && i != c ==> shards[i] == old(shards[i])
      ensures forall data: Bytes :: old(Ready(data)) && OwnOne(k, c, written + data, t) ==> Ready(data)
      ensures OwnOne(k, c, written, t) ==> shards == old(shards)
    {
      hide Ahead, OwnOne, Level, PutOne;
      ghost var before := shards;
      LandGrows(shards[c], [t]);
      var shard := Land(shards[c], [t]);
      assert [t][..0] == [];
      shards := shards[c := shard];
      GrewStriped(k, before, shards, written);
      forall data: Bytes | old(Ready(data)) && OwnOne(k, c, written + data, t) ensures Ready(data) {
        LandAhead(k, before[c], c, written + data, length / k.Stripe(), [t]);
      }
      if OwnOne(k, c, written, t) {
        SettledAlready(k, before, written, length / k.Stripe(), c, t);
        assert shards == before;
      }
    }

    /** reconstructRow: succeeds exactly when at least `d` columns can be read, whatever order they arrive in, and then
        yields the whole codeword. */
    method ReconstructRow(row: nat, world: World) returns (r: Result<seq<Bytes>>)
      requires Valid() && HasRow(written, k.Stripe(), row) && Arrival(world.order(row), k.N())
      ensures r.Ok? <==> |Readable(world, row, k.N())| >= k.d
      ensures r.Ok? ==> r.value == Word(k, written, row)
    {
      var answers := Answers(world.order(row), (c: nat) => world.full(row, c));
      AnswersDistinct(world.order(row), _ => true, (c: nat) => world.full(row, c));
      AnswersWin(world.order(row), k.N(), (c: nat) => world.full(row, c));
      assert Readable(world, row, k.N()) == Mirror.Wins(answers);
      var got := Mirror.CollectQuorum(answers, k.d);
      if got.None? {
        return Err;
      }
      SplitColumns(k, RowBytes(written, k.Stripe(), row));
      CollectedIsPick(shards, k.w, row, Word(k, written, row), got.value);
      assert Determines(k, Split(k, RowBytes(written, k.Stripe(), row)), got.value);
      return Ok(k.rebuild(Collected(shards, k.w, row, got.value)));
    }

    /** One turn of readRowRange: `n` bytes of column `col`, from that column's log or, once a log has failed, from
        the rebuilt codeword. */
    method ReadRun(row: nat, col: nat, pos: nat, n: nat, world: World, rebuilt: Option<seq<Bytes>>)
      returns (r: Result<Bytes>, rebuilt': Option<seq<Bytes>>)
      requires Valid() && HasRow(written, k.Stripe(), row) && Arrival(world.order(row), k.N())
      requires col < k.d && pos + n <= k.w && col < |Word(k, written, row)| && |Word(k, written, row)[col]| == k.w
      requires rebuilt.Some? ==> rebuilt.value == Word(k, written, row)
      ensures rebuilt'.Some? ==> rebuilt'.value == Word(k, written, row)
      ensures r.Ok? ==> r.value == Word(k, written, row)[col][pos..pos + n]
      ensures |Readable(world, row, k.N())| >= k.d ==> r.Ok?
    {
      rebuilt' := rebuilt;
      ghost var bytes := RowBytes(written, k.Stripe(), row);
      assert WordHeld(shards, k.w, row, Word(k, written, row));
      RunInColumn(k, shards[col], row, bytes, Word(k, written, row)[col], col, pos, n);
      if rebuilt.None? {
        if world.direct(row, col) {
          return Ok(shards[col][row * k.w + pos..row * k.w + pos + n]), rebuilt';
        }
        var got := ReconstructRow(row, world);
        if got.Err? {
          return Err, rebuilt';
        }
        rebuilt' := Some(got.value);
      }
      return Ok(rebuilt'.value[col][pos..pos + n]), rebuilt';
    }

    /** readRowRange. */
    method ReadRowRange(row: nat, a: nat, b: nat, world: World) returns (r: Result<Bytes>)
      requires Valid() && HasRow(written, k.Stripe(), row) && a <= b <= k.Stripe() && Arrival(world.order(row), k.N())
      ensures r.Ok? ==> r.value == RowBytes(written, k.Stripe(), row)[a..b]
      ensures |Readable(world, row, k.N())| >= k.d ==> r.Ok?
    {
      ghost var bytes, word := RowBytes(written, k.Stripe(), row), Word(k, written, row);
      var out: Bytes, cur := [], a;
      var rebuilt: Option<seq<Bytes>> := None;
      while cur < b
        invariant a <= cur <= b && out == bytes[a..cur]
        invariant rebuilt.Some? ==> rebuilt.value == word
      {
        var run;
        var col, pos, n := Place(k, cur, b);
        WordRun(k, bytes, col, pos, n);
        run, rebuilt := ReadRun(row, col, pos, n, world, rebuilt);
        if run.Err? {
          return Err;
        }
        out := out + run.value;
        cur := cur + n;
      }
      return Ok(out);
    }

    /** One turn of Read: bytes [a, b) of the row that starts at `start`. */
    method ReadRow(row: nat, start: nat, a: nat, b: nat, world: World) returns (r: Result<Bytes>)
      requires Valid() && start == row * k.Stripe() && start + k.Stripe() <= |written| && a <= b <= k.Stripe()
      requires Arrival(world.order(row), k.N())
      ensures r.Ok? ==> r.value == written[start + a..start + b]
      ensures |Failing(world, row, k.N())| <= k.p ==> r.Ok?
    {
      ReadableOrFailing(world, row, k.N());
      r := ReadRowRange(row, a, b, world);
      SliceOfSlice(written, start, k.Stripe(), a, b - a);
    }

    method ReadNext(cur: nat, end: nat, world: World) returns (r: Result<Bytes>, stop: nat)
      requires Valid() && cur < end <= length && Fair(world)
      ensures cur < stop <= end && (r.Ok? ==> r.value == written[cur..stop])
      ensures Tolerable(world) ==> r.Ok?
    {
      var row, start;
      row, start, stop := RowPlace(cur, end, length, k.Stripe());
      r := ReadRow(row, start, cur - start, stop - start, world);
    }

    ghost predicate Fair(world: World) {
      forall row: nat :: Arrival(world.order(row), k.N())
    }

    ghost predicate Tolerable(world: World) {
      forall row: nat :: |Failing(world, row, k.N())| <= k.p
    }

    /** Read: whatever succeeds is exactly what was written, and it succeeds whenever no row has lost more than `p`
        columns. */
    method Read(offset: int, len: int, world: World) returns (r: Result<Bytes>)
      requires Valid() && Fair(world)
      ensures r.Ok? ==> 0 <= offset && 0 <= len && offset + len <= |written| && r.value == written[offset..offset + len]
      ensures 0 <= offset && 0 <= len && offset + len <= |written| && Tolerable(world) ==> r.Ok?
    {
      if offset < 0 || len < 0 || offset + len > length {
        return Err;
      }
      var out: Bytes, cur := [], offset;
      while cur < offset + len
        invariant offset <= cur <= offset + len && out == written[offset..cur]
      {
        var got, stop := ReadNext(cur, offset + len, world);
        if got.Err? {
          return Err;
        }
        out := out + got.value;
        cur := stop;
      }
      return Ok(out);
    }
  }

  lemma Whole(a: nat, m: nat)
    requires m > 0 && a % m == 0
    ensures a == a / m * m
  {
  }

  lemma AddRows(a: nat, b: nat, m: nat)
    requires m > 0 && a % m == 0 && b % m == 0
    ensures (a + b) / m == a / m + b / m
  {
    var x, y := a / m, b / m;
    assert a + b == (x + y) * m;
    MultipleMod(x + y, m);
  }

  lemma AddWhole(a: nat, b: nat, m: nat)
    requires m > 0 && a % m == 0 && b % m == 0
    ensures (a + b) % m == 0
  {
    var x, y := a / m, b / m;
    assert a + b == (x + y) * m;
    MultipleMod(x + y, m);
  }

  /* ---- verification against independent bytes ---- */

  predicate Deep(shards: seq<Bytes>, w: nat, r: nat) {
    forall c :: 0 <= c < |shards| ==> r * w + w <= |shards[c]|
  }

  /** The columns of row `r` as they are stored. */
  function Stored(shards: seq<Bytes>, w: nat, r: nat): seq<Bytes>
    requires Deep(shards, w, r)
  {
    seq(|shards|, c requires 0 <= c < |shards| => shards[c][r * w..r * w + w])
  }

  /** A column that starts at logical byte `start` agrees with the expected bytes where the two ranges meet. */
  predicate ColumnAgrees(column: Bytes, start: nat, offset: nat, expected: Bytes) {
    forall i :: 0 <= i < |column| && offset <= start + i < offset + |expected| ==> column[i] == expected[start + i - offset]
  }

  predicate ColumnOk(cols: seq<Bytes>, w: nat, base: nat, c: nat, offset: nat, expected: Bytes)
    requires c < |cols|
  {
    ColumnAgrees(cols[c], base + c * w, offset, expected)
  }

  /** The stored row is a codeword and its data columns, from logical byte `base` on, agree with the expected bytes. */
  predicate RowVerified(k: Code, cols: seq<Bytes>, base: nat, offset: nat, expected: Bytes)
    requires |cols| == k.N()
  {
    cols == Encode(k, cols[..k.d]) && forall c :: 0 <= c < k.d ==> ColumnOk(cols, k.w, base, c, offset, expected)
  }

  method VerifyRow(k: Code, cols: seq<Bytes>, base: nat, offset: nat, expected: Bytes) returns (ok: bool)
    requires |cols| == k.N()
    ensures ok <==> RowVerified(k, cols, base, offset, expected)
  {
    if cols != Encode(k, cols[..k.d]) {
      return false;
    }
    var c := 0;
    while c < k.d
      invariant 0 <= c <= k.d
      invariant forall i :: 0 <= i < c ==> ColumnOk(cols, k.w, base, i, offset, expected)
    {
      if !ColumnOk(cols, k.w, base, c, offset, expected) {
        return false;
      }
      c := c + 1;
    }
    return true;
  }

  /** Row `r` is readable on every shard and verifies. */
  ghost predicate RowPasses(k: Code, shards: seq<Bytes>, r: nat, offset: nat, expected: Bytes, readable: (nat, nat) -> bool)
    requires |shards| == k.N()
  {
    && (forall c :: 0 <= c < k.N() ==> readable(r, c)) && Deep(shards, k.w, r)
    && RowVerified(k, Stored(shards, k.w, r), r * k.Stripe(), offset, expected)
  }

  method VerifyStored(k: Code, shards: seq<Bytes>, r: nat, at: nat, offset: nat, expected: Bytes, readable: (nat, nat) -> bool) returns (ok: bool)
    requires |shards| == k.N() && at == r * k.Stripe()
    ensures ok <==> RowPasses(k, shards, r, offset, expected, readable)
  {
    if !(forall c :: 0 <= c < k.N() ==> readable(r, c)) || !Deep(shards, k.w, r) {
      return false;
    }
    ok := VerifyRow(k, Stored(shards, k.w, r), at, offset, expected);
  }

  lemma LastRow(r: nat, end: nat, stripe: nat)
    requires stripe > 0 && end > 0
    ensures r * stripe < end <==> r <= (end - 1) / stripe
  {
    var last := (end - 1) / stripe;
    if r <= last {
      MulLe(r, last, stripe);
    } else {
      MulLe(last + 1, r, stripe);
    }
  }

  /** VerifyAll on an erasure-coded log of `length` bytes, whatever its shards hold: it succeeds exactly when the
      range lies inside the log and every row it touches is readable on every shard, is a codeword, and agrees with
      the expected bytes. */
  method VerifyAll(k: Code, shards: seq<Bytes>, length: nat, offset: int, expected: Bytes, readable: (nat, nat) -> bool) returns (ok: bool)
    requires |shards| == k.N() && k.Stripe() > 0
    ensures offset < 0 || offset + |expected| > length ==> !ok
    ensures 0 <= offset <= length && expected == [] ==> ok
    ensures 0 <= offset && offset + |expected| <= length && expected != [] ==>
              (ok <==> forall r: nat :: offset / k.Stripe() <= r <= (offset + |expected| - 1) / k.Stripe() ==>
                                          RowPasses(k, shards, r, offset, expected, readable))
  {
    if offset < 0 || offset > length || |expected| > length - offset {
      return false;
    }
    if expected == [] {
      return true;
    }
    var stripe, end := k.Stripe(), offset + |expected|;
    var r := offset / stripe;
    var at := r * stripe;
    LastRow(r, end, stripe);
    while at < end
      invariant at == r * stripe && offset / stripe <= r && (at < end <==> r <= (end - 1) / stripe)
      invariant forall i: nat :: offset / stripe <= i < r ==> RowPasses(k, shards, i, offset, expected, readable)
      decreases end - at
    {
      var good := VerifyStored(k, shards, r, at, offset, expected, readable);
      if !good {
        return false;
      }
      r, at := r + 1, at + stripe;
      LastRow(r, end, stripe);
    }
    return true;
  }

  lemma StoredHeld(shards: seq<Bytes>, w: nat, r: nat)
    requires Deep(shards, w, r)
    ensures WordHeld(shards, w, r, Stored(shards, w, r)) && Columns(Stored(shards, w, r), |shards|, w)
  {
  }

  lemma HeldStored(shards: seq<Bytes>, w: nat, r: nat, word: seq<Bytes>)
    requires WordHeld(shards, w, r, word)
    ensures Deep(shards, w, r) && Stored(shards, w, r) == word
  {
  }

  lemma WholeColumn(column: Bytes, start: nat, offset: nat, expected: Bytes)
    requires ColumnAgrees(column, start, offset, expected) && offset <= start && start + |column| <= offset + |expected|
    ensures column == expected[start - offset..start - offset + |column|]
  {
  }

  /** Columns that agree with a whole row of bytes are the columns of that row. */
  lemma ColumnIs(k: Code, column: Bytes, c: nat, base: nat, offset: nat, expected: Bytes)
    requires c < k.d && |column| == k.w && offset <= base && base + k.Stripe() <= offset + |expected|
    requires ColumnAgrees(column, base + c * k.w, offset, expected)
    ensures column == Column(expected[base - offset..base - offset + k.Stripe()], k.w, c)
  {
    ColumnFits(k, c);
    WholeColumn(column, base + c * k.w, offset, expected);
    SliceOfSlice(expected, base - offset, k.Stripe(), c * k.w, k.w);
  }

  lemma ColumnsAre(k: Code, cols: seq<Bytes>, base: nat, offset: nat, expected: Bytes)
    requires Columns(cols, k.N(), k.w) && RowVerified(k, cols, base, offset, expected)
    requires offset <= base && base + k.Stripe() <= offset + |expected|
    ensures cols == Encode(k, Split(k, expected[base - offset..base - offset + k.Stripe()]))
  {
    var row := expected[base - offset..base - offset + k.Stripe()];
    forall c | 0 <= c < k.d ensures cols[c] == Column(row, k.w, c) {
      assert ColumnOk(cols, k.w, base, c, offset, expected);
      ColumnIs(k, cols[c], c, base, offset, expected);
    }
    assert cols[..k.d] == Split(k, row);
  }

  /** A verified row that lies wholly inside the range: every shard, parity included, holds exactly its column of the
      codeword of the expected bytes. */
  lemma VerifiedRowIsEncoded(k: Code, shards: seq<Bytes>, r: nat, base: nat, offset: nat, expected: Bytes)
    requires |shards| == k.N() && Deep(shards, k.w, r) && RowVerified(k, Stored(shards, k.w, r), base, offset, expected)
    requires offset <= base && base + k.Stripe() <= offset + |expected|
    ensures WordHeld(shards, k.w, r, Encode(k, Split(k, expected[base - offset..base - offset + k.Stripe()])))
  {
    StoredHeld(shards, k.w, r);
    ColumnsAre(k, Stored(shards, k.w, r), base, offset, expected);
  }

  lemma SliceAgrees(all: Bytes, start: nat, w: nat, offset: nat, len: nat)
    requires start + w <= |all| && offset + len <= |all|
    ensures ColumnAgrees(all[start..start + w], start, offset, all[offset..offset + len])
  {
  }

  lemma WordVerifies(k: Code, all: Bytes, base: nat, row: Bytes, offset: nat, expected: Bytes)
    requires Shaped(k) && base + k.Stripe() <= |all| && row == all[base..base + k.Stripe()]
    requires offset + |expected| <= |all| && expected == all[offset..offset + |expected|]
    ensures |Encode(k, Split(k, row))| == k.N() && RowVerified(k, Encode(k, Split(k, row)), base, offset, expected)
  {
    var cols := Encode(k, Split(k, row));
    WordColumns(k, row);
    SplitColumns(k, row);
    assert cols[..k.d] == Split(k, row);
    forall c | 0 <= c < k.d ensures ColumnOk(cols, k.w, base, c, offset, expected) {
      SplitAt(k, row, c);
      SliceOfSlice(all, base, k.Stripe(), c * k.w, k.w);
      SliceAgrees(all, base + c * k.w, k.w, offset, |expected|);
    }
  }

  /** A log whose shards hold what was written verifies against what was written. */
  lemma WrittenVerifies(k: Code, shards: seq<Bytes>, all: Bytes, r: nat, offset: nat, expected: Bytes)
    requires Shaped(k) && Striped(k, shards, all) && HasRow(all, k.Stripe(), r)
    requires offset + |expected| <= |all| && expected == all[offset..offset + |expected|]
    ensures RowPasses(k, shards, r, offset, expected, (row, c) => true)
  {
    HeldStored(shards, k.w, r, Word(k, all, r));
    WordVerifies(k, all, r * k.Stripe(), RowBytes(all, k.Stripe(), r), offset, expected);
  }

  /* ---- rows out of parts ---- */

  lemma {:induction false} FlattenSnoc(parts: seq<Bytes>, last: Bytes)
    ensures Flatten(parts + [last]) == Flatten(parts) + last
  {
    if parts == [] {
      assert parts + [last] == [last];
      assert Flatten([last]) == last + Flatten([]);
    } else {
      FlattenSnoc(parts[1..], last);
      assert (parts + [last])[1..] == parts[1..] + [last];
      assert parts[0] + (Flatten(parts[1..]) + last) == parts[0] + Flatten(parts[1..]) + last;
    }
  }

  /** One part copied into the row buffer, a row at a time. */
  method FillRows(rows: seq<Bytes>, fill: Bytes, part: Bytes, stripe: nat) returns (rows': seq<Bytes>, fill': Bytes)
    requires |fill| < stripe && forall i :: 0 <= i < |rows| ==> |rows[i]| == stripe
    ensures |fill'| < stripe && forall i :: 0 <= i < |rows'| ==> |rows'[i]| == stripe
    ensures Flatten(rows') + fill' == Flatten(rows) + fill + part
  {
    rows', fill' := rows, fill;
    var rest := part;
    ghost var all := Flatten(rows) + fill + part;
    while rest != []
      invariant |fill'| < stripe && forall i :: 0 <= i < |rows'| ==> |rows'[i]| == stripe
      invariant Flatten(rows') + fill' + rest == all
      decreases |rest|
    {
      var n := if |rest| < stripe - |fill'| then |rest| else stripe - |fill'|;
      assert rest == rest[..n] + rest[n..];
      assert Flatten(rows') + (fill' + rest[..n]) + rest[n..] == all;
      fill', rest := fill' + rest[..n], rest[n..];
      if |fill'| == stripe {
        FlattenSnoc(rows', fill');
        rows', fill' := rows' + [fill'], [];
        assert Flatten(rows') + [] + rest == all;
      }
    }
  }

  /** EnsureWrite's row assembly on an erasure-coded log: however the bytes are cut into parts, the rows that are
      encoded are the rows of their concatenation, and what does not fill a row is refused. */
  method Regroup(parts: seq<Bytes>, stripe: nat) returns (r: Result<seq<Bytes>>)
    requires stripe > 0
    ensures r.Ok? ==> Flatten(r.value) == Flatten(parts) && forall i :: 0 <= i < |r.value| ==> |r.value[i]| == stripe
    ensures r.Err? ==> exists rows: seq<Bytes>, left: Bytes :: RowsAnd(rows, stripe, left) && left != [] && Flatten(rows) + left == Flatten(parts)
  {
    var rows: seq<Bytes>, fill: Bytes := [], [];
    var i := 0;
    while i < |parts|
      invariant 0 <= i <= |parts| && RowsAnd(rows, stripe, fill)
      invariant Flatten(rows) + fill == Flatten(parts[..i])
    {
      assert parts[..i + 1] == parts[..i] + [parts[i]];
      FlattenSnoc(parts[..i], parts[i]);
      rows, fill := FillRows(rows, fill, parts[i], stripe);
      i := i + 1;
    }
    assert parts[..i] == parts;
    if fill != [] {
      return Err;
    }
    return Ok(rows);
  }

  predicate RowsAnd(rows: seq<Bytes>, stripe: nat, left: Bytes) {
    |left| < stripe && forall i :: 0 <= i < |rows| ==> |rows[i]| == stripe
  }
}
