/**
 The live namespace (meta/namespace.go and the path half of meta/queries.go): a table of file heads
 and a table of directories, each row carrying its parent and name.
 */
module Namespace {
  import opened Paths
  import opened Results

  datatype Entry<T> = Entry(parent: Path, name: Path, mtime: int, body: T)

  type Table<T> = map<Path, Entry<T>>

  /** Heads carry the id of a file version; directories carry nothing. */
  datatype Names = Names(heads: Table<nat>, dirs: Table<()>)

  function Row<T>(p: Path, mtime: int, body: T): Entry<T> {
    Entry(Parent(p), Name(p), mtime, body)
  }

  /** The same row at another path. */
  function At<T>(p: Path, e: Entry<T>): Entry<T> {
    Entry(Parent(p), Name(p), e.mtime, e.body)
  }

  /* ---- the tree invariant ---- */

  predicate RowOk<T>(t: Table<T>, p: Path)
    requires p in t
  {
    Canonical(p) && t[p].parent == Parent(p) && t[p].name == Name(p)
  }

  predicate Indexed<T>(t: Table<T>) {
    forall p :: p in t ==> RowOk(t, p)
  }

  predicate Hangs(p: Path, dirs: Table<()>) {
    Parent(p) == "" || Parent(p) in dirs
  }

  predicate AllHang<T>(t: Table<T>, dirs: Table<()>) {
    forall p :: p in t ==> Hangs(p, dirs)
  }

  /** No path is both file and directory, every parent is the root or a directory, and parent and name match. */
  predicate Tree(ns: Names) {
    && Indexed(ns.heads) && Indexed(ns.dirs) && ns.heads.Keys !! ns.dirs.Keys
    && AllHang(ns.heads, ns.dirs) && AllHang(ns.dirs, ns.dirs)
  }

  /* ---- ensureDirs ---- */

  /** INSERT ... ON CONFLICT DO NOTHING. */
  function AddDir(dirs: Table<()>, p: Path, mtime: int): Table<()> {
    if p in dirs then dirs else dirs[p := Row(p, mtime, ())]
  }

  function EnsureAll(heads: Table<nat>, dirs: Table<()>, above: seq<Path>, mtime: int): Option<Table<()>>
    decreases |above|
  {
    if above == [] then Some(dirs)
    else if above[0] in heads then None
    else EnsureAll(heads, AddDir(dirs, above[0], mtime), above[1..], mtime)
  }

  function EnsureDirs(ns: Names, path: Path, mtime: int): Option<Table<()>>
    requires Canonical(path)
  {
    EnsureAll(ns.heads, ns.dirs, Ancestors(path), mtime)
  }

  /** It fails exactly when an ancestor is a file, and otherwise adds exactly the missing ancestors. */
  lemma {:induction false} EnsureAllMeaning(heads: Table<nat>, dirs: Table<()>, above: seq<Path>, mtime: int)
    ensures EnsureAll(heads, dirs, above, mtime).Some? <==> forall a :: a in above ==> a !in heads
    ensures var r := EnsureAll(heads, dirs, above, mtime);
            r.Some? ==>
              && (forall q :: q in r.value <==> q in dirs || q in above)
              && (forall q :: q in r.value ==> r.value[q] == if q in dirs then dirs[q] else Row(q, mtime, ()))
    decreases |above|
  {
    hide Parent, Name;
    if above != [] {
      assert above == [above[0]] + above[1..];
      EnsureAllMeaning(heads, AddDir(dirs, above[0], mtime), above[1..], mtime);
    }
  }

  method EnsureLoop(heads: Table<nat>, dirs: Table<()>, above: seq<Path>, mtime: int) returns (r: Option<Table<()>>)
    ensures r == EnsureAll(heads, dirs, above, mtime)
  {
    var cur, i := dirs, 0;
    assert above[0..] == above;
    while i < |above|
      invariant 0 <= i <= |above|
      invariant EnsureAll(heads, cur, above[i..], mtime) == EnsureAll(heads, dirs, above, mtime)
    {
      assert above[i..][0] == above[i] && above[i..][1..] == above[i + 1..];
      if above[i] in heads {
        return None;
      }
      cur := AddDir(cur, above[i], mtime);
      i := i + 1;
    }
    assert above[i..] == [];
    return Some(cur);
  }

  lemma EnsureTree(ns: Names, path: Path, mtime: int)
    requires Tree(ns) && Canonical(path) && EnsureDirs(ns, path, mtime).Some?
    ensures var dirs := EnsureDirs(ns, path, mtime).value;
            Tree(Names(ns.heads, dirs)) && Hangs(path, dirs) && forall q :: q in dirs && q !in ns.dirs ==> q in Ancestors(path)
  {
    var dirs := EnsureDirs(ns, path, mtime).value;
    EnsureAllMeaning(ns.heads, ns.dirs, Ancestors(path), mtime);
    forall q | q in dirs ensures RowOk(dirs, q) && Hangs(q, dirs) && q !in ns.heads {
      if q in ns.dirs {
        assert RowOk(ns.dirs, q) && Hangs(q, ns.dirs);
      } else {
        AncestorsAbove(path, q);
      }
    }
    forall q | q in ns.heads ensures Hangs(q, dirs) {
      assert Hangs(q, ns.dirs);
    }
    Split(path);
    assert Parent(path) != "" ==> Ancestors(path)[0] == Parent(path);
  }

  /* ---- single entries ---- */

  /** A path as cleanPath leaves it. */
  predicate Clean(p: Path) {
    p == "" || Canonical(p)
  }

  /** The namespace half of publishFileVersion. */
  function PutHead(ns: Names, path: Path, file: nat, mtime: int): Option<Names>
    requires Clean(path)
  {
    if path == "" || path in ns.dirs then None
    else
      var heads := ns.heads[path := Row(path, mtime, file)];
      var dirs := EnsureDirs(Names(heads, ns.dirs), path, mtime);
      if dirs.None? then None else Some(Names(heads, dirs.value))
  }

  lemma PutHeadHeads(ns: Names, path: Path, file: nat, mtime: int)
    requires Clean(path) && PutHead(ns, path, file, mtime).Some?
    ensures PutHead(ns, path, file, mtime).value.heads == ns.heads[path := Row(path, mtime, file)]
  {
    hide Parent, Name, Ancestors, EnsureDirs, EnsureAll, Canonical;
  }

  lemma NotOwnAncestor(path: Path)
    requires Canonical(path)
    ensures path !in Ancestors(path)
  {
    if path in Ancestors(path) {
      AncestorsAbove(path, path);
    }
  }

  /** A new head keeps the tree and changes nothing but that head and its missing ancestors; it is refused exactly
      at the root, over a directory, and beneath a file. */
  lemma PutHeadTree(ns: Names, path: Path, file: nat, mtime: int)
    requires Tree(ns) && Clean(path)
    ensures var r := PutHead(ns, path, file, mtime);
            && (r.Some? <==> path != "" && path !in ns.dirs && forall a :: a in Ancestors(path) ==> a !in ns.heads)
            && (r.Some? ==>
                  && Tree(r.value) && r.value.heads == ns.heads[path := Row(path, mtime, file)]
                  && forall q :: q in r.value.dirs ==>
                                   if q in ns.dirs then r.value.dirs[q] == ns.dirs[q] else q in Ancestors(path))
  {
    hide Parent, Name, Ancestors, EnsureAll, Tree, Canonical;
    if path != "" && path !in ns.dirs {
      var heads := ns.heads[path := Row(path, mtime, file)];
      NotOwnAncestor(path);
      EnsureAllMeaning(ns.heads, ns.dirs, Ancestors(path), mtime);
      EnsureAllMeaning(heads, ns.dirs, Ancestors(path), mtime);
      if EnsureAll(heads, ns.dirs, Ancestors(path), mtime).Some? {
        PutTree(ns, path, Row(path, mtime, file), mtime);
      }
    }
  }

  /** A row placed at `path` once its ancestors are there. */
  lemma PutTree(ns: Names, path: Path, row: Entry<nat>, mtime: int)
    requires Tree(ns) && Canonical(path) && path !in ns.dirs && row == At(path, row)
    requires EnsureAll(ns.heads, ns.dirs, Ancestors(path), mtime).Some?
    ensures var heads := ns.heads[path := row];
            && EnsureAll(heads, ns.dirs, Ancestors(path), mtime) == EnsureAll(ns.heads, ns.dirs, Ancestors(path), mtime)
            && Tree(Names(heads, EnsureAll(heads, ns.dirs, Ancestors(path), mtime).value))
  {
    hide Parent, Name, Ancestors, EnsureAll, Canonical;
    var heads := ns.heads[path := row];
    NotOwnAncestor(path);
    EnsureAllMeaning(ns.heads, ns.dirs, Ancestors(path), mtime);
    EnsureAllMeaning(heads, ns.dirs, Ancestors(path), mtime);
    EnsureTree(ns, path, mtime);
    var a, b := EnsureAll(heads, ns.dirs, Ancestors(path), mtime).value, EnsureAll(ns.heads, ns.dirs, Ancestors(path), mtime).value;
    assert a.Keys == b.Keys;
    assert a == b;
    forall p | p in heads ensures RowOk(heads, p) && Hangs(p, a) && p !in a {
      if p != path {
        assert RowOk(ns.heads, p) && Hangs(p, b);
      }
    }
  }

  /** Removing a head. */
  lemma DropHeadTree(ns: Names, path: Path)
    requires Tree(ns)
    ensures Tree(Names(ns.heads - {path}, ns.dirs))
  {
  }

  function Mkdir(ns: Names, path: Path, mtime: int): Option<Names>
    requires Clean(path)
  {
    if path == "" then Some(ns)
    else if path in ns.heads then None
    else
      var dirs := EnsureDirs(ns, path, mtime);
      if dirs.None? then None else Some(Names(ns.heads, AddDir(dirs.value, path, mtime)))
  }

  lemma MkdirTree(ns: Names, path: Path, mtime: int)
    requires Tree(ns) && Clean(path)
    ensures var r := Mkdir(ns, path, mtime);
            && (r.Some? <==> path == "" || forall a :: a == path || a in Ancestors(path) ==> a !in ns.heads)
            && (r.Some? ==>
                  && Tree(r.value) && r.value.heads == ns.heads && (path != "" ==> path in r.value.dirs)
                  && forall q :: q in r.value.dirs ==>
                                   if q in ns.dirs then r.value.dirs[q] == ns.dirs[q] else q == path || q in Ancestors(path))
  {
    hide Parent, Name, Ancestors, EnsureAll, Canonical;
    if path != "" && path !in ns.heads {
      EnsureAllMeaning(ns.heads, ns.dirs, Ancestors(path), mtime);
      if EnsureDirs(ns, path, mtime).Some? {
        EnsureTree(ns, path, mtime);
        var dirs := EnsureDirs(ns, path, mtime).value;
        var next := AddDir(dirs, path, mtime);
        forall q | q in next ensures RowOk(next, q) && Hangs(q, next) {
          assert q != path ==> RowOk(dirs, q) && Hangs(q, dirs);
        }
        forall q | q in ns.heads ensures Hangs(q, next) {
          assert Hangs(q, dirs);
        }
      }
    }
  }

  /** Some row names `path` as its parent. */
  predicate HasChild(ns: Names, path: Path) {
    (exists p :: p in ns.heads && ns.heads[p].parent == path) || (exists p :: p in ns.dirs && ns.dirs[p].parent == path)
  }

  function Rmdir(ns: Names, path: Path): Option<Names> {
    if path == "" || HasChild(ns, path) then None else Some(Names(ns.heads, ns.dirs - {path}))
  }

  /** The parent columns see everything that lies beneath a directory. */
  lemma {:induction false} NoChildNothingUnder(ns: Names, path: Path, p: Path)
    requires Tree(ns) && Canonical(path) && !HasChild(ns, path) && (p in ns.heads || p in ns.dirs) && Under(p, path)
    ensures p == path
    decreases |p|
  {
    if p != path {
      var dirs := ns.dirs;
      assert (p in ns.heads ==> RowOk(ns.heads, p) && Hangs(p, dirs)) && (p in dirs ==> RowOk(dirs, p) && Hangs(p, dirs));
      ParentUnder(p, path);
      NoChildNothingUnder(ns, path, Parent(p));
    }
  }

  lemma RmdirTree(ns: Names, path: Path)
    requires Tree(ns)
    ensures Rmdir(ns, path).Some? ==> Tree(Rmdir(ns, path).value)
  {
    hide Parent, Name;
    if Rmdir(ns, path).Some? {
      var dirs := ns.dirs - {path};
      forall p | p in dirs ensures RowOk(dirs, p) && Hangs(p, dirs) {
        assert RowOk(ns.dirs, p) && Hangs(p, ns.dirs);
      }
      forall p | p in ns.heads ensures Hangs(p, dirs) {
        assert RowOk(ns.heads, p) && Hangs(p, ns.dirs);
      }
    }
  }

  /* ---- moving a file ---- */

  function MoveFile(ns: Names, o: Path, n: Path, now: int): Option<Names>
    requires Canonical(n) && o in ns.heads
  {
    if n in ns.dirs then None
    else
      var heads := ns.heads[n := At(n, ns.heads[o])] - {o};
      var dirs := EnsureDirs(Names(heads, ns.dirs), n, now);
      if dirs.None? then None else Some(Names(heads, dirs.value))
  }

  lemma MoveFileTree(ns: Names, o: Path, n: Path, now: int)
    requires Tree(ns) && Canonical(n) && o in ns.heads && !Under(n, o)
    ensures var r := MoveFile(ns, o, n, now);
            && (r.Some? <==> n !in ns.dirs && forall a :: a in Ancestors(n) ==> a !in ns.heads)
            && (r.Some? ==>
                  && Tree(r.value) && r.value.heads == ns.heads[n := At(n, ns.heads[o])] - {o}
                  && forall q :: q in r.value.dirs ==> if q in ns.dirs then r.value.dirs[q] == ns.dirs[q] else q in Ancestors(n))
  {
    hide Parent, Name, Ancestors, EnsureAll, Tree, Canonical;
    var heads := ns.heads[n := At(n, ns.heads[o])] - {o};
    assert forall a :: a in Ancestors(n) ==> a != o && a != n by {
      forall a | a in Ancestors(n) ensures a != o && a != n {
        AncestorsAbove(n, a);
      }
    }
    EnsureAllMeaning(heads, ns.dirs, Ancestors(n), now);
    assert forall a :: a in Ancestors(n) ==> (a in heads <==> a in ns.heads);
    if n !in ns.dirs && EnsureAll(heads, ns.dirs, Ancestors(n), now).Some? {
      DropHeadTree(ns, o);
      var ns' := Names(ns.heads - {o}, ns.dirs);
      EnsureAllMeaning(ns'.heads, ns.dirs, Ancestors(n), now);
      assert heads == ns'.heads[n := At(n, ns.heads[o])];
      PutTree(ns', n, At(n, ns.heads[o]), now);
    }
  }

  /* ---- moving a subtree ---- */

  /** The rows of the table with those in `moved` rewritten from under `o` to under `n`. */
  ghost function Rewrite<T>(t: Table<T>, o: Path, n: Path, moved: set<Path>): Table<T>
    requires moved <= t.Keys && forall p :: p in moved ==> Under(p, o)
  {
    (map p | p in t && p !in moved :: t[p]) +
    (map q | q in Images(o, n, moved) :: var p := Target(q, n, o); At(q, t[p]))
  }

  ghost function Images(o: Path, n: Path, moved: set<Path>): (images: set<Path>)
    requires forall p :: p in moved ==> Under(p, o)
    ensures forall q :: q in images ==> Under(q, n) && Target(q, n, o) in moved && Target(Target(q, n, o), o, n) == q
    ensures forall p :: p in moved ==> Target(p, o, n) in images
  {
    var images := set p | p in moved :: Target(p, o, n);
    assert forall q :: q in images ==> Under(q, n) && Target(q, n, o) in moved && Target(Target(q, n, o), o, n) == q by {
      forall q | q in images ensures Under(q, n) && Target(q, n, o) in moved && Target(Target(q, n, o), o, n) == q {
        var p :| p in moved && Target(p, o, n) == q;
        TargetUnder(p, o, n);
      }
    }
    images
  }

  function Beneath<T>(t: Table<T>, o: Path): set<Path> {
    set p | p in t && Under(p, o)
  }

  /** Nothing lies at or beneath `n`. */
  ghost predicate Vacant<T>(t: Table<T>, n: Path) {
    forall p :: p in t ==> !Under(p, n)
  }

  lemma RewriteMeaning<T>(t: Table<T>, o: Path, n: Path, moved: set<Path>)
    requires moved <= Beneath(t, o)
    ensures var r, images := Rewrite(t, o, n, moved), Images(o, n, moved);
            && (forall k :: k in r <==> k in images || (k in t && k !in moved))
            && (forall k :: k in images ==> r[k] == At(k, t[Target(k, n, o)]))
            && (forall k :: k in t && k !in moved && k !in images ==> r[k] == t[k])
  {
    hide Parent, Name, Under, Target, At, Images;
  }

  /* ---- the rows the database finds ---- */

  function Caught<T>(t: Table<T>, o: Path): set<Path> {
    set p | p in t && Like(p, o)
  }

  /** Where rewriteSubtreePaths puts a row it has found. */
  function Relocated(p: Path, o: Path, n: Path): Path {
    if |o| <= |p| then n + p[|o|..] else n
  }

  /** Two of the rows get the same path, which the table's key refuses. */
  ghost predicate Clash(moved: set<Path>, o: Path, n: Path) {
    exists p, q :: p in moved && q in moved && p != q && Relocated(p, o, n) == Relocated(q, o, n)
  }

  /** `r` is `t` with the rows in `moved` rewritten. */
  ghost predicate Rewritten<T>(t: Table<T>, o: Path, n: Path, moved: set<Path>, r: Table<T>)
    requires moved <= t.Keys
  {
    && (forall p :: p in moved ==> Relocated(p, o, n) in r && r[Relocated(p, o, n)] == At(Relocated(p, o, n), t[p]))
    && (forall p :: p in t && p !in moved ==> p in r && r[p] == t[p])
    && (forall q :: q in r ==> (q in t && q !in moved) || exists p :: p in moved && Relocated(p, o, n) == q)
  }

  lemma RelocatedUnder(p: Path, o: Path, n: Path)
    requires Like(p, o)
    ensures Under(Relocated(p, o, n), n)
  {
  }

  /** One of the rows would get the path of a row that stays, which the table's key refuses too. */
  ghost predicate Occupied<T>(t: Table<T>, o: Path, n: Path) {
    exists p :: p in Caught(t, o) && Relocated(p, o, n) in t && Relocated(p, o, n) !in Caught(t, o)
  }

  /** One of the rows would get the path another one still has, unless that one is rewritten first. */
  ghost predicate Overlap<T>(t: Table<T>, o: Path, n: Path) {
    exists p :: p in Caught(t, o) && Relocated(p, o, n) in Caught(t, o) && Relocated(p, o, n) != p
  }

  /** Rows went only to places that no row had, or that rows among them had left. */
  ghost predicate Clear<T>(t: Table<T>, o: Path, n: Path, moved: set<Path>) {
    forall p :: p in moved && Relocated(p, o, n) in t ==> Relocated(p, o, n) in moved
  }

  /** With nothing at or beneath `n` every place is free. */
  lemma VacantOpen<T>(t: Table<T>, o: Path, n: Path)
    requires Vacant(t, n)
    ensures !Occupied(t, o, n) && !Overlap(t, o, n)
  {
    forall p | p in Caught(t, o) ensures Relocated(p, o, n) !in t {
      RelocatedUnder(p, o, n);
    }
  }

  /** Why a place is taken. */
  lemma PlaceTaken<T>(t: Table<T>, o: Path, n: Path, moved: set<Path>, r: Table<T>, p: Path)
    requires moved <= Caught(t, o) && Rewritten(t, o, n, moved, r) && p in Caught(t, o) && p !in moved
    requires Relocated(p, o, n) in r && Relocated(p, o, n) != p
    ensures Clash(Caught(t, o), o, n) || Occupied(t, o, n) || Overlap(t, o, n)
  {
    hide At, Relocated, Like;
    var q := Relocated(p, o, n);
    if !(q in t && q !in moved) {
      var p' :| p' in moved && Relocated(p', o, n) == q;
      assert p' in Caught(t, o);
    }
  }

  /** One more row goes to a free place, or stays where it is. */
  lemma RewrittenOne<T>(t: Table<T>, o: Path, n: Path, moved: set<Path>, r: Table<T>, p: Path, q: Path, next: Table<T>)
    requires moved <= t.Keys && Clear(t, o, n, moved) && Rewritten(t, o, n, moved, r)
    requires p in t && p !in moved && q == Relocated(p, o, n) && (q == p || q !in r) && next == (r - {p})[q := At(q, t[p])]
    ensures Rewritten(t, o, n, moved + {p}, next)
  {
    hide At, Relocated;
    var more := moved + {p};
    forall k | k in next ensures (k in t && k !in more) || exists p' :: p' in more && Relocated(p', o, n) == k {
      if k == q {
        assert p in more;
      } else if !(k in t && k !in moved) {
        var p' :| p' in moved && Relocated(p', o, n) == k;
        assert p' in more;
      }
    }
    forall k | k in more ensures Relocated(k, o, n) in next && next[Relocated(k, o, n)] == At(Relocated(k, o, n), t[k]) {
      assert k in moved ==> Relocated(k, o, n) in r && Relocated(k, o, n) != p;
    }
  }

  lemma ClearOne<T>(t: Table<T>, o: Path, n: Path, moved: set<Path>, r: Table<T>, p: Path)
    requires moved <= t.Keys && Clear(t, o, n, moved) && !Clash(moved, o, n) && Rewritten(t, o, n, moved, r)
    requires p in t && p !in moved && (Relocated(p, o, n) == p || Relocated(p, o, n) !in r)
    ensures Clear(t, o, n, moved + {p}) && !Clash(moved + {p}, o, n)
  {
    hide At, Relocated;
    var q := Relocated(p, o, n);
    forall k | k in moved ensures Relocated(k, o, n) != q {
      assert Relocated(k, o, n) in r;
      assert q == p ==> Relocated(k, o, n) !in t || Relocated(k, o, n) in moved;
    }
  }

  lemma StillThere<T>(t: Table<T>, o: Path, n: Path, moved: set<Path>, r: Table<T>, p: Path)
    requires moved <= t.Keys && Rewritten(t, o, n, moved, r) && p in t && p !in moved
    ensures p in r && r[p] == t[p]
  {
  }

  /** rewriteSubtreePaths: the rows the database finds, in whatever order it lists them. Where it succeeds each of them was
      rewritten once. It fails when two of them would get the same path or one the path of a row that stays, and may fail
      when one would get the path another one still has. */
  method RewriteLoop<T>(t: Table<T>, o: Path, n: Path) returns (r: Option<Table<T>>)
    ensures r.None? ==> Clash(Caught(t, o), o, n) || Occupied(t, o, n) || Overlap(t, o, n)
    ensures r.Some? ==> !Clash(Caught(t, o), o, n) && !Occupied(t, o, n) && Rewritten(t, o, n, Caught(t, o), r.value)
  {
    hide Like, Under, Parent, Name, At, Clash, Rewritten, Relocated, Clear;
    var now, rest := t, Caught(t, o);
    ghost var moved: set<Path> := {};
    RewrittenNone(t, o, n);
    while rest != {}
      invariant moved + rest == Caught(t, o) && moved !! rest
      invariant moved <= Caught(t, o) && !Clash(moved, o, n) && Clear(t, o, n, moved) && Rewritten(t, o, n, moved, now)
      decreases |rest|
    {
      var p :| p in rest;
      var q := Relocated(p, o, n);
      StillThere(t, o, n, moved, now, p);
      if q in now && q != p {
        PlaceTaken(t, o, n, moved, now, p);
        return None;
      }
      RewrittenOne(t, o, n, moved, now, p, q, (now - {p})[q := At(q, now[p])]);
      ClearOne(t, o, n, moved, now, p);
      now := (now - {p})[q := At(q, now[p])];
      moved, rest := moved + {p}, rest - {p};
    }
    assert moved == Caught(t, o);
    ClearAll(t, o, n);
    return Some(now);
  }

  lemma RewrittenNone<T>(t: Table<T>, o: Path, n: Path)
    ensures !Clash({}, o, n) && Clear(t, o, n, {}) && Rewritten(t, o, n, {}, t)
  {
  }

  lemma ClearAll<T>(t: Table<T>, o: Path, n: Path)
    requires Clear(t, o, n, Caught(t, o))
    ensures !Occupied(t, o, n)
  {
  }

  /** The table rewriteSubtreePaths leaves. `late` says that where one row's new path is still another's, the database
      lists them in an order that fails. */
  ghost function RewriteLike<T>(t: Table<T>, o: Path, n: Path, late: bool): Option<Table<T>> {
    if Clash(Caught(t, o), o, n) || Occupied(t, o, n) || (late && Overlap(t, o, n)) then None
    else Some((map p | p in t && p !in Caught(t, o) :: t[p]) + (map q | q in Places(t, o, n) :: At(q, t[Source(t, o, n, q)])))
  }

  ghost function Places<T>(t: Table<T>, o: Path, n: Path): set<Path> {
    set p | p in Caught(t, o) :: Relocated(p, o, n)
  }

  ghost function Source<T>(t: Table<T>, o: Path, n: Path, q: Path): (p: Path)
    requires q in Places(t, o, n)
    ensures p in Caught(t, o) && Relocated(p, o, n) == q
  {
    var p :| p in Caught(t, o) && Relocated(p, o, n) == q;
    p
  }

  /** A rewritten table is determined. */
  lemma RewrittenIs<T>(t: Table<T>, o: Path, n: Path, r: Table<T>)
    requires !Clash(Caught(t, o), o, n) && !Occupied(t, o, n) && Rewritten(t, o, n, Caught(t, o), r)
    ensures RewriteLike(t, o, n, false) == Some(r)
  {
    hide Like, Under, Parent, Name, At, Relocated;
    var s := RewriteLike(t, o, n, false).value;
    forall q ensures q in r <==> q in s {
      if q in r && !(q in t && q !in Caught(t, o)) {
        var p :| p in Caught(t, o) && Relocated(p, o, n) == q;
        assert q in Places(t, o, n);
      }
      if q in Places(t, o, n) {
        var p := Source(t, o, n, q);
      }
    }
    forall q | q in r ensures r[q] == s[q] {
      if q in Places(t, o, n) {
        var p := Source(t, o, n, q);
        assert r[q] == At(q, t[p]);
      }
    }
    assert r.Keys == s.Keys;
    assert r == s;
  }

  /** A row that is found although it does not lie beneath `o`. */
  predicate Variant(p: Path, o: Path) {
    Like(p, o) && !Under(p, o)
  }

  lemma CaughtIsBeneath<T>(t: Table<T>, o: Path)
    requires forall p :: p in t ==> !Variant(p, o)
    ensures Caught(t, o) == Beneath(t, o)
  {
    forall p | p in t && Under(p, o) ensures Like(p, o) {
    }
  }

  /** Without such a row, exactly the rows beneath `o` are rewritten. */
  lemma LikeIsRewrite<T>(t: Table<T>, o: Path, n: Path, late: bool)
    requires Vacant(t, n) && forall p :: p in t ==> !Variant(p, o)
    ensures RewriteLike(t, o, n, late) == Some(Rewrite(t, o, n, Beneath(t, o)))
  {
    hide Like, Under, Parent, Name, At, Rewrite, Images, Target, RewriteLike;
    CaughtIsBeneath(t, o);
    var moved := Beneath(t, o);
    forall p | p in moved
      ensures Relocated(p, o, n) == Target(p, o, n) && Under(Target(p, o, n), n) && Target(Target(p, o, n), n, o) == p
    {
      TargetUnder(p, o, n);
      SamePlace(p, o, n);
    }
    RewriteMeaning(t, o, n, moved);
    assert Rewritten(t, o, n, moved, Rewrite(t, o, n, moved));
    VacantOpen(t, o, n);
    RewrittenIs(t, o, n, Rewrite(t, o, n, moved));
    LateIsNever(t, o, n, late);
  }

  lemma LateIsNever<T>(t: Table<T>, o: Path, n: Path, late: bool)
    requires !Overlap(t, o, n)
    ensures RewriteLike(t, o, n, late) == RewriteLike(t, o, n, false)
  {
  }

  lemma SamePlace(p: Path, o: Path, n: Path)
    requires Under(p, o) && Like(p, o)
    ensures Relocated(p, o, n) == Target(p, o, n)
  {
  }

  /* ---- moving a directory ---- */

  /** The directory case of RenameFile and renameDirSubtree. An existing destination must be an empty directory. */
  ghost function MoveDir(ns: Names, o: Path, n: Path, now: int, late: bool): Option<Names>
    requires Canonical(n)
  {
    if n in ns.heads || (n in ns.dirs && HasChild(ns, n)) then None
    else
      var dirs := EnsureDirs(Names(ns.heads, ns.dirs - {n}), n, now);
      if dirs.None? then None
      else
        var dirs', heads' := RewriteLike(dirs.value, o, n, late), RewriteLike(ns.heads, o, n, late);
        if dirs'.None? || heads'.None? then None else Some(Names(heads'.value, dirs'.value))
  }

  /** Nothing lies beneath a path that differs from `o` only in the case of letters, and `n` would not either. */
  ghost predicate Separated(ns: Names, o: Path, n: Path)
    requires Canonical(n)
  {
    forall p :: p in ns.heads || (p in ns.dirs && p != n) || p in Ancestors(n) ==> !Variant(p, o)
  }

  /** The subtree move as it is meant: exactly what lies beneath `o`. */
  ghost function MoveSubtree(ns: Names, o: Path, n: Path, now: int): Option<Names>
    requires Canonical(n)
  {
    if n in ns.heads || (n in ns.dirs && HasChild(ns, n)) then None
    else
      var dirs := EnsureDirs(Names(ns.heads, ns.dirs - {n}), n, now);
      if dirs.None? then None
      else Some(Names(Rewrite(ns.heads, o, n, Beneath(ns.heads, o)), Rewrite(dirs.value, o, n, Beneath(dirs.value, o))))
  }

  lemma MoveDirIsSubtree(ns: Names, o: Path, n: Path, now: int, late: bool)
    requires Tree(ns) && Canonical(n) && Separated(ns, o, n)
    ensures MoveDir(ns, o, n, now, late) == MoveSubtree(ns, o, n, now)
  {
    hide Parent, Name, Canonical, Under, Like, EnsureAll, Ancestors, Tree, Rewrite, HasChild, RewriteLike, Variant;
    if n !in ns.heads && !(n in ns.dirs && HasChild(ns, n)) {
      var ns0 := Names(ns.heads, ns.dirs - {n});
      Cleared(ns, n, now);
      EnsureAllMeaning(ns0.heads, ns0.dirs, Ancestors(n), now);
      if EnsureDirs(ns0, n, now).Some? {
        LikeIsRewrite(ns.heads, o, n, late);
        LikeIsRewrite(EnsureDirs(ns0, n, now).value, o, n, late);
      }
    }
  }

  /** Once an empty `n` is gone and its ancestors are there, nothing lies at or beneath `n`. */
  lemma Cleared(ns: Names, n: Path, now: int)
    requires Tree(ns) && Canonical(n) && n !in ns.heads && !(n in ns.dirs && HasChild(ns, n))
    ensures var ns0 := Names(ns.heads, ns.dirs - {n});
            && Tree(ns0) && Vacant(ns.heads, n) && Vacant(ns0.dirs, n)
            && (EnsureDirs(ns0, n, now).Some? ==> Vacant(EnsureDirs(ns0, n, now).value, n))
  {
    hide Parent, Name, Canonical, EnsureAll, Ancestors;
    var ns0 := Names(ns.heads, ns.dirs - {n});
    if n in ns.dirs {
      RmdirTree(ns, n);
    } else {
      assert ns0.dirs == ns.dirs;
    }
    ChildlessWhenAbsent(ns0, n);
    forall p | (p in ns0.heads || p in ns0.dirs) && Under(p, n) ensures p == n {
      NoChildNothingUnder(ns0, n, p);
    }
    if EnsureDirs(ns0, n, now).Some? {
      EnsureAllMeaning(ns0.heads, ns0.dirs, Ancestors(n), now);
      forall q | q in EnsureDirs(ns0, n, now).value ensures !Under(q, n) {
        if q in Ancestors(n) {
          AncestorsAbove(n, q);
        }
      }
    }
  }

  lemma ChildlessWhenAbsent(ns: Names, n: Path)
    requires Tree(ns) && Canonical(n) && n !in ns.dirs
    ensures !HasChild(ns, n)
  {
  }

  /* ---- the tree after any directory rename ---- */

  lemma RelocatedCanonical(p: Path, o: Path, n: Path)
    requires Canonical(p) && Canonical(o) && Canonical(n) && Like(p, o)
    ensures Canonical(Relocated(p, o, n))
  {
    var t := Relocated(p, o, n);
    forall i | 0 <= i < |t| - 1 ensures SingleAt(t, i) {
      if i < |n| - 1 {
        assert SingleAt(n, i);
      } else if i >= |n| {
        assert SingleAt(p, i - |n| + |o|);
      }
    }
  }

  /** The parent of a row that is found: a case variant of `o` itself, or a row that is found as well. */
  lemma RelocatedParent(p: Path, o: Path, n: Path)
    requires Canonical(p) && Canonical(o) && Canonical(n) && Like(p, o) && p != o
    ensures Parent(p) != "" && |Parent(p)| >= |o|
    ensures if |Parent(p)| == |o| then Parent(Relocated(p, o, n)) == n
            else Like(Parent(p), o) && Parent(Relocated(p, o, n)) == Relocated(Parent(p), o, n)
  {
    hide Parent, LastSlash, SameFold;
    var v, s := p[..|o|], p[|o|..];
    assert p == v + s && s[0] == '/';
    RelocatedCanonical(p, o, n);
    SplitSuffix(v, s);
    SplitSuffix(n, s);
    Split(p);
    var j := LastSlash(s);
    assert Parent(p) == v + s[..j] && (v + s[..j])[|o|..] == s[..j];
    assert Parent(p)[..|o|] == v;
    if j > 0 {
      assert Parent(p)[|o|] == '/';
    } else {
      assert n + s[..0] == n;
    }
  }

  /** The new name does not lie beneath a case variant of the old one, and no file and directory get the same path. */
  ghost predicate Movable(ns: Names, o: Path, n: Path)
    requires Canonical(n)
  {
    && (forall a :: a in Ancestors(n) ==> !Like(a, o))
    && (forall p, d :: p in Caught(ns.heads, o) && d in Caught(ns.dirs - {n}, o) ==> Relocated(p, o, n) != Relocated(d, o, n))
  }

  /** What is in a rewritten table, and whence. */
  lemma LikeMeaning<T>(t: Table<T>, o: Path, n: Path, late: bool)
    requires Vacant(t, n) && RewriteLike(t, o, n, late).Some?
    ensures var r := RewriteLike(t, o, n, late).value;
            && (forall p :: p in t && !Like(p, o) ==> p in r && r[p] == t[p])
            && (forall p :: p in t && Like(p, o) ==> Relocated(p, o, n) in r && r[Relocated(p, o, n)] == At(Relocated(p, o, n), t[p]) && p !in r)
            && (forall q :: q in r ==> (q in t && !Like(q, o)) || (Under(q, n) && exists p :: p in t && Like(p, o) && Relocated(p, o, n) == q))
  {
    hide Like, Under, Parent, Name, At, Relocated;
    var r := RewriteLike(t, o, n, late).value;
    forall p | p in Caught(t, o) ensures Under(Relocated(p, o, n), n) && Relocated(p, o, n) in Places(t, o, n) {
      RelocatedUnder(p, o, n);
    }
    forall p | p in Caught(t, o) ensures Source(t, o, n, Relocated(p, o, n)) == p {
    }
    forall q | q in Places(t, o, n) ensures Under(q, n) {
      var p := Source(t, o, n, q);
    }
  }

  lemma LikeIndexed<T>(t: Table<T>, o: Path, n: Path, late: bool)
    requires Indexed(t) && Canonical(o) && Canonical(n) && Vacant(t, n) && RewriteLike(t, o, n, late).Some?
    ensures Indexed(RewriteLike(t, o, n, late).value)
  {
    hide Like, Under, Parent, Name, Relocated, RewriteLike, Canonical;
    var r := RewriteLike(t, o, n, late).value;
    LikeMeaning(t, o, n, late);
    forall q | q in r ensures RowOk(r, q) {
      if q in t && !Like(q, o) {
        assert RowOk(t, q);
      } else {
        var p :| p in t && Like(p, o) && Relocated(p, o, n) == q;
        assert RowOk(t, p);
        RelocatedCanonical(p, o, n);
      }
    }
  }

  /** Parents stay or move along, if the new name's own parent stays. */
  lemma LikeHangs<T>(t: Table<T>, dirs: Table<()>, o: Path, n: Path, late: bool)
    requires Indexed(t) && AllHang(t, dirs) && Canonical(o) && Canonical(n) && Vacant(t, n) && Vacant(dirs, n) && o in dirs
    requires RewriteLike(t, o, n, late).Some? && RewriteLike(dirs, o, n, late).Some?
    requires Hangs(n, dirs) && (Parent(n) != "" ==> !Like(Parent(n), o))
    ensures AllHang(RewriteLike(t, o, n, late).value, RewriteLike(dirs, o, n, late).value)
  {
    hide Under, Name, RewriteLike, Canonical, Parent, Like, Relocated;
    var r, rd := RewriteLike(t, o, n, late).value, RewriteLike(dirs, o, n, late).value;
    LikeMeaning(t, o, n, late);
    LikeMeaning(dirs, o, n, late);
    assert n in rd by {
      SelfLike(o, n);
    }
    forall q | q in r ensures Hangs(q, rd) {
      if q in t && !Like(q, o) {
        assert RowOk(t, q) && Hangs(q, dirs);
        if Parent(q) != "" && Like(Parent(q), o) {
          ParentAbove(q);
          LikeDeeper(q, Parent(q), o);
        }
      } else {
        var p :| p in t && Like(p, o) && Relocated(p, o, n) == q;
        assert RowOk(t, p) && Hangs(p, dirs);
        if p == o {
          SelfLike(o, n);
        } else {
          RelocatedParent(p, o, n);
        }
      }
    }
  }

  lemma SelfUnder(o: Path)
    ensures Under(o, o)
  {
  }

  lemma SelfLike(o: Path, n: Path)
    ensures Like(o, o) && Relocated(o, o, n) == n
  {
  }

  lemma ParentAbove(p: Path)
    requires Canonical(p) && Parent(p) != ""
    ensures Under(p, Parent(p))
  {
    Split(p);
  }

  /** If an ancestor of the new name is found, so is its parent, and the new name is left without one. */
  lemma DeepestFound(n: Path, a: Path, o: Path)
    requires Canonical(n) && a in Ancestors(n) && Like(a, o)
    ensures Parent(n) != "" && Parent(n) in Ancestors(n) && Like(Parent(n), o)
  {
    hide Like, Canonical;
    Split(n);
    var q := Parent(n);
    assert Ancestors(n) == [q] + Ancestors(q) && Ancestors(n)[0] == q;
    if a != q {
      assert a in Ancestors(q);
      AncestorsAbove(q, a);
      LikeDeeper(q, a, o);
    }
  }

  /** No two files and no two directories get the same path. */
  ghost predicate Unclashed(ns: Names, o: Path, n: Path)
    requires Canonical(n)
  {
    && !Clash(Caught(ns.heads, o), o, n)
    && !Clash((set p | p in (ns.dirs - {n}).Keys + (set a | a in Ancestors(n)) && Like(p, o)), o, n)
  }

  /** A directory rename is refused exactly over a file, over a non-empty directory, beneath a file, and when two rows
      would get the same path. Otherwise it keeps the tree if and only if the new name does not lie beneath a case variant
      of the old one and no file and directory get the same path. */
  lemma MoveDirTree(ns: Names, o: Path, n: Path, now: int, late: bool)
    requires Tree(ns) && Canonical(o) && Canonical(n) && !Under(n, o) && o in ns.dirs
    ensures var r := MoveDir(ns, o, n, now, late);
            && (r.Some? <==> n !in ns.heads && !(n in ns.dirs && HasChild(ns, n)) && (forall a :: a in Ancestors(n) ==> a !in ns.heads) && Unclashed(ns, o, n))
            && (r.Some? ==> (Tree(r.value) <==> Movable(ns, o, n)))
  {
    hide Parent, Name, Canonical, Under, Like, EnsureAll, Ancestors, HasChild, Relocated, Tree, Clash, Movable;
    if n !in ns.heads && !(n in ns.dirs && HasChild(ns, n)) {
      var ns0 := Names(ns.heads, ns.dirs - {n});
      Cleared(ns, n, now);
      EnsureAllMeaning(ns0.heads, ns0.dirs, Ancestors(n), now);
      if EnsureDirs(ns0, n, now).Some? {
        var dirs := EnsureDirs(ns0, n, now).value;
        assert Caught(dirs, o) == set p | p in (ns.dirs - {n}).Keys + (set a | a in Ancestors(n)) && Like(p, o);
        VacantOpen(dirs, o, n);
        VacantOpen(ns.heads, o, n);
        if MoveDir(ns, o, n, now, late).Some? {
          MovedTree(ns, o, n, now, late);
        }
      }
    }
  }

  lemma MovedTree(ns: Names, o: Path, n: Path, now: int, late: bool)
    requires Tree(ns) && Canonical(o) && Canonical(n) && !Under(n, o) && o in ns.dirs && MoveDir(ns, o, n, now, late).Some?
    ensures Tree(MoveDir(ns, o, n, now, late).value) <==> Movable(ns, o, n)
  {
    hide Parent, Name, Canonical, Under, Like, EnsureAll, Ancestors, RewriteLike, HasChild, Relocated, Indexed, AllHang, Vacant;
    var ns0 := Names(ns.heads, ns.dirs - {n});
    SelfUnder(o);
    Cleared(ns, n, now);
    EnsureAllMeaning(ns0.heads, ns0.dirs, Ancestors(n), now);
    EnsureTree(ns0, n, now);
    var dirs, r := EnsureDirs(ns0, n, now).value, MoveDir(ns, o, n, now, late).value;
    LikeMeaning(ns.heads, o, n, late);
    LikeMeaning(dirs, o, n, late);
    AncestorsApart(n, o);
    if Movable(ns, o, n) {
      LikeIndexed(ns.heads, o, n, late);
      LikeIndexed(dirs, o, n, late);
      ParentIsAncestor(n);
      LikeHangs(ns.heads, dirs, o, n, late);
      LikeHangs(dirs, dirs, o, n, late);
      forall q | q in r.heads && q in r.dirs ensures false {
        CrossPath(ns, dirs, o, n, q, late);
      }
    } else if a :| a in Ancestors(n) && Like(a, o) {
      DeepestFound(n, a, o);
      SelfLike(o, n);
      assert n in r.dirs && Parent(n) !in r.dirs;
      NotHanging(r.dirs, n);
    } else {
      var p, d :| p in Caught(ns.heads, o) && d in Caught(ns.dirs - {n}, o) && Relocated(p, o, n) == Relocated(d, o, n);
      assert d in dirs;
      assert Relocated(p, o, n) in r.heads && Relocated(p, o, n) in r.dirs;
    }
  }

  lemma NotHanging(dirs: Table<()>, n: Path)
    requires n in dirs && Parent(n) != "" && Parent(n) !in dirs
    ensures !AllHang(dirs, dirs)
  {
    assert !Hangs(n, dirs);
  }

  lemma ParentIsAncestor(n: Path)
    requires Canonical(n)
    ensures Parent(n) != "" ==> Parent(n) in Ancestors(n)
  {
    Split(n);
    assert Parent(n) != "" ==> Ancestors(n)[0] == Parent(n);
  }

  /** No path is in both rewritten tables. */
  lemma CrossPath(ns: Names, dirs: Table<()>, o: Path, n: Path, q: Path, late: bool)
    requires Canonical(n) && Movable(ns, o, n) && ns.heads.Keys !! dirs.Keys && Vacant(ns.heads, n) && Vacant(dirs, n)
    requires forall d :: d in dirs ==> d in ns.dirs - {n} || d in Ancestors(n)
    requires RewriteLike(ns.heads, o, n, late).Some? && RewriteLike(dirs, o, n, late).Some?
    ensures q !in RewriteLike(ns.heads, o, n, late).value || q !in RewriteLike(dirs, o, n, late).value
  {
    hide Canonical, Under, Like, Ancestors, RewriteLike, Relocated;
    LikeMeaning(ns.heads, o, n, late);
    LikeMeaning(dirs, o, n, late);
    forall p, d | p in ns.heads && Like(p, o) && d in dirs && Like(d, o) ensures Relocated(p, o, n) != Relocated(d, o, n) {
      assert p in Caught(ns.heads, o) && d in Caught(ns.dirs - {n}, o);
    }
  }

  /** Exactly what is beneath `o` moves, to the same place beneath `n`, with its contents. */
  ghost predicate MovedExactly<T>(before: Table<T>, after: Table<T>, o: Path, n: Path, gone: set<Path>, added: set<Path>) {
    && (forall p :: p in before && Under(p, o) ==> Target(p, o, n) in after && after[Target(p, o, n)] == At(Target(p, o, n), before[p]))
    && (forall p :: p in before && !Under(p, o) && p !in gone ==> p in after && after[p] == before[p])
    && (forall q :: q in after ==> (Under(q, n) && Target(q, n, o) in before) || (q in before && !Under(q, o)) || q in added)
  }

  lemma RewriteExactly<T>(before: Table<T>, t: Table<T>, o: Path, n: Path, gone: set<Path>, added: set<Path>)
    requires Vacant(t, n) && (forall p :: p in before && p !in gone ==> p in t && t[p] == before[p])
    requires forall p :: p in t && p !in before ==> p in added && !Under(p, o)
    requires forall p :: p in gone ==> !Under(p, o)
    ensures MovedExactly(before, Rewrite(t, o, n, Beneath(t, o)), o, n, gone, added)
  {
    hide Parent, Name, Under, Target, Rewrite, Images, At;
    RewriteMeaning(t, o, n, Beneath(t, o));
    forall p | p in before && Under(p, o) ensures Target(Target(p, o, n), n, o) == p && Under(Target(p, o, n), n) {
      TargetUnder(p, o, n);
    }
  }

  lemma MoveSubtreeExact(ns: Names, o: Path, n: Path, now: int)
    requires Tree(ns) && Canonical(o) && Canonical(n) && !Under(n, o) && MoveSubtree(ns, o, n, now).Some?
    ensures var r := MoveSubtree(ns, o, n, now).value;
            && MovedExactly(ns.heads, r.heads, o, n, {}, {})
            && MovedExactly(ns.dirs, r.dirs, o, n, {n}, (set a | a in Ancestors(n)))
  {
    hide Parent, Name, Canonical, EnsureAll, Ancestors, Tree, Rewrite, HasChild, MovedExactly, Target, At;
    var ns0 := Names(ns.heads, ns.dirs - {n});
    Cleared(ns, n, now);
    EnsureAllMeaning(ns0.heads, ns0.dirs, Ancestors(n), now);
    var dirs := EnsureDirs(ns0, n, now).value;
    forall a | a in Ancestors(n) ensures !Under(a, o) {
      AncestorsAbove(n, a);
      if Under(a, o) {
        UnderTrans(n, a, o);
      }
    }
    RewriteExactly(ns.heads, ns.heads, o, n, {}, {});
    RewriteExactly(ns.dirs, dirs, o, n, {n}, (set a | a in Ancestors(n)));
  }

  /** A row beneath a case variant is not where it was, and its new place comes from nowhere beneath `o`. */
  lemma VariantMoves<T>(before: Table<T>, t: Table<T>, o: Path, n: Path, p: Path, gone: set<Path>, added: set<Path>, late: bool)
    requires Vacant(t, n) && p in t && Variant(p, o) && RewriteLike(t, o, n, late).Some? && p != n
    requires (forall q :: q in before && q !in gone ==> q in t) && (forall q :: q in gone || q in added ==> !Under(q, o) && (q == n || !Under(q, n)))
    requires p in before ==> p !in gone
    ensures !MovedExactly(before, RewriteLike(t, o, n, late).value, o, n, gone, added)
  {
    hide Like, Under, Parent, Name, At, Relocated, Target;
    var r, q := RewriteLike(t, o, n, late).value, Relocated(p, o, n);
    RelocatedBack(p, o, n);
    assert p in Caught(t, o) && q in Places(t, o, n) && q in r;
    if p in before {
      if p in Places(t, o, n) {
        RelocatedUnder(Source(t, o, n, p), o, n);
      }
      assert p !in r;
    } else {
      var back := Target(q, n, o);
      assert back in before ==> back in Caught(t, o);
    }
  }

  lemma RelocatedBack(p: Path, o: Path, n: Path)
    requires Variant(p, o)
    ensures var q := Relocated(p, o, n);
            && q != n && Under(q, n) && Under(Target(q, n, o), o) && Like(Target(q, n, o), o) && Relocated(Target(q, n, o), o, n) == q
            && Target(q, n, o) != p
  {
    var s := p[|o|..];
    assert (n + s)[|n|..] == s && (o + s)[|o|..] == s && (o + s)[..|o|] == o;
  }

  /** A directory rename that succeeds moves exactly what lies beneath the directory, to the same place beneath its new
      name and with its contents, if and only if nothing lies beneath a case variant of the old name. */
  lemma MoveDirExact(ns: Names, o: Path, n: Path, now: int, late: bool)
    requires Tree(ns) && Canonical(o) && Canonical(n) && !Under(n, o) && MoveDir(ns, o, n, now, late).Some?
    ensures var r := MoveDir(ns, o, n, now, late).value;
            && MovedExactly(ns.heads, r.heads, o, n, {}, {})
            && MovedExactly(ns.dirs, r.dirs, o, n, {n}, (set a | a in Ancestors(n)))
            <==> Separated(ns, o, n)
  {
    hide Parent, Name, Canonical, Under, Like, EnsureAll, Ancestors, Tree, Rewrite, RewriteLike, HasChild, MovedExactly, Target, At, Variant;
    if Separated(ns, o, n) {
      MoveDirIsSubtree(ns, o, n, now, late);
      MoveSubtreeExact(ns, o, n, now);
    } else {
      var ns0 := Names(ns.heads, ns.dirs - {n});
      Cleared(ns, n, now);
      EnsureAllMeaning(ns0.heads, ns0.dirs, Ancestors(n), now);
      var dirs := EnsureDirs(ns0, n, now).value;
      var p :| (p in ns.heads || (p in ns.dirs && p != n) || p in Ancestors(n)) && Variant(p, o);
      AncestorsApart(n, o);
      if p in ns.heads {
        VariantMoves(ns.heads, ns.heads, o, n, p, {}, {}, late);
      } else {
        VariantMoves(ns.dirs, dirs, o, n, p, {n}, (set a | a in Ancestors(n)), late);
      }
    }
  }

  lemma AncestorsApart(n: Path, o: Path)
    requires Canonical(n) && !Under(n, o)
    ensures forall a :: a in Ancestors(n) ==> a != n && !Under(a, o) && !Under(a, n)
  {
    hide Canonical, Ancestors;
    forall a | a in Ancestors(n) ensures a != n && !Under(a, o) && !Under(a, n) {
      AncestorsAbove(n, a);
      if Under(a, o) {
        UnderTrans(n, a, o);
      }
    }
  }

  /** Directories `a` and `A`, and a file in the latter. */
  function TwoCases(file: nat, mtime: int): Names {
    Names(map["A/x" := Row("A/x", mtime, file)], map["a" := Row("a", mtime, ()), "A" := Row("A", mtime, ())])
  }

  lemma SmallPaths()
    ensures Canonical("a") && Canonical("A") && Canonical("b") && Canonical("A/x")
    ensures Parent("a") == "" && Parent("A") == "" && Parent("b") == "" && Parent("A/x") == "A"
  {
    assert "b"[..0] == "" && "a"[..0] == "" && "A"[..0] == "";
    assert "A/x"[..2] == "A/" && "A/x"[..1] == "A";
    assert LastSlash("A/") == 1;
    assert LastSlash("A/x") == LastSlash("A/x"[..2]);
  }

  lemma SmallMatches()
    ensures Like("A/x", "a") && Relocated("A/x", "a", "b") == "b/x" && Relocated("a", "a", "b") == "b"
    ensures Like("a", "a") && !Like("A", "a")
    ensures !Under("a", "b") && !Under("A", "b") && !Under("A/x", "b") && "b/x" != "A/x"
  {
    assert "A/x"[..1] == "A" && "A/x"[1..] == "/x" && "b" + "/x" == "b/x" && "a"[1..] == "";
    assert SameFold("A", "a");
  }

  lemma TwoCasesTree(file: nat, mtime: int)
    ensures Tree(TwoCases(file, mtime)) && Vacant(TwoCases(file, mtime).heads, "b") && Vacant(TwoCases(file, mtime).dirs, "b")
  {
    hide Canonical, Parent, Name, Under;
    SmallPaths();
    SmallMatches();
  }

  /** Renaming `a` to `b` takes the file of `A` along. */
  lemma RenameTakesOtherCase(file: nat, mtime: int, now: int, late: bool)
    ensures Canonical("b")
    ensures var ns := TwoCases(file, mtime);
            var r := MoveDir(ns, "a", "b", now, late);
            Tree(ns) && r.Some? && "A/x" !in r.value.heads && "b/x" in r.value.heads && r.value.heads["b/x"].body == file
  {
    hide Canonical, Parent, Name, Under, Like, Relocated, Tree;
    SmallPaths();
    SmallMatches();
    TwoCasesTree(file, mtime);
    var ns := TwoCases(file, mtime);
    assert Ancestors("b") == [] && ns.dirs - {"b"} == ns.dirs;
    assert Caught(ns.heads, "a") == {"A/x"} && Caught(ns.dirs, "a") == {"a"};
    assert "b/x" in Places(ns.heads, "a", "b");
  }

  /** Directories `a`, `A` and `A/d`. */
  function Nested(mtime: int): Table<()> {
    map["a" := Row("a", mtime, ()), "A" := Row("A", mtime, ()), "A/d" := Row("A/d", mtime, ())]
  }

  lemma NestedPaths()
    ensures Canonical("A/d") && Canonical("A/d/z") && Parent("A/d") == "A" && Parent("A/d/z") == "A/d"
    ensures Like("A/d", "a") && Relocated("A/d", "a", "A/d/z") == "A/d/z/d" && Relocated("a", "a", "A/d/z") == "A/d/z"
  {
    assert "A/d"[..2] == "A/" && "A/d"[..1] == "A" && "A/d"[1..] == "/d" && "a"[1..] == "";
    assert "A/d/z"[..4] == "A/d/" && "A/d/z"[..3] == "A/d";
    assert LastSlash("A/") == 1 && LastSlash("A/d/") == 3;
    assert LastSlash("A/d") == LastSlash("A/d"[..2]) && LastSlash("A/d/z") == LastSlash("A/d/z"[..4]);
    assert SameFold("A", "a") && "A/d/z" + "/d" == "A/d/z/d";
  }

  lemma NestedTree(mtime: int)
    ensures Canonical("A/d/z")
    ensures Tree(Names(map[], Nested(mtime))) && Ancestors("A/d/z") == ["A/d", "A"] && !Under("A/d/z", "a")
  {
    hide Canonical, Parent, Name;
    SmallPaths();
    NestedPaths();
    assert Ancestors("A") == [] && Ancestors("A/d") == ["A"];
    assert "A/d/z"[..1] == "A";
  }

  /** Renaming `a` into a directory of `A` takes that directory away from under it. */
  lemma RenameOrphansOtherCase(mtime: int, now: int, late: bool)
    ensures Canonical("A/d/z")
    ensures var ns := Names(map[], Nested(mtime));
            var r := MoveDir(ns, "a", "A/d/z", now, late);
            Tree(ns) && r.Some? && !Tree(r.value)
  {
    hide Canonical, Parent, Name, Under, Like, Relocated, MoveDir, Row, HasChild, Tree;
    SmallPaths();
    SmallMatches();
    NestedPaths();
    NestedTree(mtime);
    var ns, n := Names(map[], Nested(mtime)), "A/d/z";
    var found := set p | p in (ns.dirs - {n}).Keys + (set a | a in Ancestors(n)) && Like(p, "a");
    assert Caught(ns.heads, "a") == {};
    assert found == {"a", "A/d"};
    MoveDirTree(ns, "a", n, now, late);
  }

  /** RenameFile. */
  ghost function Rename(ns: Names, o: Path, n: Path, now: int, late: bool): Option<Names>
    requires Clean(o) && Clean(n)
  {
    if o == "" || n == "" then None
    else if o == n then if o in ns.heads || o in ns.dirs then Some(ns) else None
    else if Under(n, o) then None
    else if o in ns.heads then MoveFile(ns, o, n, now)
    else if o in ns.dirs then MoveDir(ns, o, n, now, late)
    else None
  }

  ghost predicate Moves(ns: Names, o: Path, n: Path)
    requires Clean(n)
  {
    n == "" || o == n || o in ns.heads || Movable(ns, o, n)
  }

  /** A successful rename keeps the tree if and only if, when it moves a directory, that can. */
  lemma RenameTree(ns: Names, o: Path, n: Path, now: int, late: bool)
    requires Tree(ns) && Clean(o) && Clean(n) && Rename(ns, o, n, now, late).Some?
    ensures Tree(Rename(ns, o, n, now, late).value) <==> Moves(ns, o, n)
  {
    hide Parent, Name, Canonical, EnsureAll, Ancestors, Tree, Rewrite, MoveFile, MoveDir;
    if o != n {
      if o in ns.heads {
        MoveFileTree(ns, o, n, now);
      } else {
        MoveDirTree(ns, o, n, now, late);
      }
    }
  }
}
