/** What the MTP object table shows after a rescan: the handle tree is the path tree. */
module MtpTree {
  import opened MtpTable

  // ---- every store, after any rescan -----------------------------------------------------------

  /** A visit's directory is where the scan started or is itself a visited folder. */
  lemma {:induction false} VisitsClosed(k: Kids, rel: Path, i: nat) returns (j: int)
    requires WellNamed(k) && i < |Visits(k, rel)|
    ensures var vs := Visits(k, rel);
      if j == -1 then Above(vs[i].path) == rel
      else 0 <= j < |vs| && vs[j].path == Above(vs[i].path) && vs[j].folder
    decreases k
  {
    var down := rel + [k.name];
    var a, b := Visits(k.inner, down), Visits(k.rest, rel);
    if i == 0 {
      assert Above(down) == rel;
      j := -1;
    } else if i <= |a| {
      j := VisitsClosed(k.inner, down, i - 1);
      j := j + 1;
    } else {
      j := VisitsClosed(k.rest, rel, i - 1 - |a|);
      if j != -1 {
        j := j + 1 + |a|;
      }
    }
  }

  lemma ShownIsKnown(t: Table, si: nat, k: Kids)
    requires WellNamed(k) && StoreShown(t, si, k)
    ensures AllKnown(t, si, k)
  {
    var vs := Visits(k, []);
    forall i | 0 <= i < |vs| ensures Known(t, si, Above(vs[i].path)) {
      var j := VisitsClosed(k, [], i);
      if j != -1 {
        assert Settled(t, si, vs[j]);
      }
    }
  }

  ghost predicate ShownUpTo(t: Table, stores: seq<Kids>, n: nat)
    requires n <= |stores|
  {
    && (forall si :: 0 <= si < n ==> StoreShown(t, si, stores[si]))
    && (forall si: nat :: n <= si ==> StoreHidden(t, si))
  }

  lemma ScanOneShows(t: Table, stores: seq<Kids>, n: nat)
    requires n < |stores| && Valid(t) && LiveFirst(t) && WellNamedAll(stores) && ShownUpTo(t, stores, n)
    ensures var u := SettleAll(t, n, Visits(stores[n], [])); Valid(u) && LiveFirst(u) && Keeps(t, u) && ShownUpTo(u, stores, n + 1)
  {
    var vs := Visits(stores[n], []);
    var u := SettleAll(t, n, vs);
    VisitsUnder(stores[n], []);
    SettleAllKeeps(t, n, vs);
    ScanShows(t, n, stores[n]);
    forall si | 0 <= si < n ensures StoreShown(u, si, stores[si]) {
      ShownIsKnown(t, si, stores[si]);
      OtherStore(t, n, vs, si, stores[si]);
    }
    forall si: nat | n + 1 <= si ensures StoreHidden(u, si) {
      OtherStore(t, n, vs, si, End);
    }
  }

  lemma {:induction false} ScanStoresShow(t: Table, stores: seq<Kids>, n: nat)
    requires n <= |stores| && Valid(t) && LiveFirst(t) && WellNamedAll(stores) && ShownUpTo(t, stores, n)
    ensures var u := ScanStores(t, stores, n); Valid(u) && LiveFirst(u) && Keeps(t, u) && ShownUpTo(u, stores, |stores|)
    decreases |stores| - n
  {
    if n < |stores| {
      var u := SettleAll(t, n, Visits(stores[n], []));
      ScanOneShows(t, stores, n);
      ScanStoresShow(u, stores, n + 1);
      KeepsTrans(t, u, ScanStores(u, stores, n + 1));
    }
  }

  /** After any rescan, of any table, the live entries are exactly the stores' paths, each the
      first entry of its path and under its directory's handle; and no entry loses its handle
      or its path. */
  lemma RescanShows(t: Table, stores: seq<Kids>)
    requires Valid(t) && WellNamedAll(stores)
    ensures var u := Rescan(t, stores); Valid(u) && LiveFirst(u) && Keeps(t, u) && ShownUpTo(u, stores, |stores|)
  {
    var dead := t.(objs := Killed(t.objs));
    forall i | 0 <= i < |t.objs| ensures SameEntry(t.objs[i], dead.objs[i]) {}
    ScanStoresShow(dead, stores, 0);
    KeepsTrans(t, dead, Rescan(t, stores));
  }

  // ---- parents -----------------------------------------------------------------------

  /** Entry `i` hangs at the top, or under the live entry of its directory. */
  ghost predicate ParentIs(t: Table, i: nat)
    requires i < |t.objs|
  {
    var o := t.objs[i];
    if |o.path| <= 1 then o.parent == 0
    else
      var k := ByPath(t.objs, o.si, Above(o.path));
      k != -1 && t.objs[k].alive && t.objs[k].isDir && o.parent == t.objs[k].handle
  }

  ghost predicate Linked(t: Table) {
    forall i :: 0 <= i < |t.objs| && t.objs[i].alive ==> ParentIs(t, i)
  }

  lemma ShownIsLinked(t: Table, stores: seq<Kids>)
    requires Valid(t) && LiveFirst(t) && WellNamedAll(stores) && ShownUpTo(t, stores, |stores|)
    ensures Linked(t)
  {
    forall i | 0 <= i < |t.objs| && t.objs[i].alive ensures ParentIs(t, i) {
      var o := t.objs[i];
      assert |stores| <= o.si ==> StoreHidden(t, o.si);
      EntryLinked(t, o.si, stores[o.si], i);
    }
  }

  lemma EntryLinked(t: Table, si: nat, k: Kids, i: nat)
    requires Valid(t) && LiveFirst(t) && WellNamed(k) && StoreShown(t, si, k) && i < |t.objs| && t.objs[i].alive && t.objs[i].si == si
    ensures ParentIs(t, i)
  {
    var o, vs := t.objs[i], Visits(k, []);
    assert Met(o, si, vs);
    var m :| 0 <= m < |vs| && vs[m].path == o.path;
    assert ByPath(t.objs, si, o.path) == i;
    assert Settled(t, si, vs[m]);
    var j := VisitsClosed(k, [], m);
    if j != -1 {
      VisitsUnder(k, []);
      assert Settled(t, si, vs[j]) && vs[j].path != [];
    }
  }

  /** After any rescan each parent handle names the directory of the path. */
  lemma RescanLinks(t: Table, stores: seq<Kids>)
    requires Valid(t) && WellNamedAll(stores)
    ensures Valid(Rescan(t, stores)) && Linked(Rescan(t, stores))
  {
    RescanShows(t, stores);
    ShownIsLinked(Rescan(t, stores), stores);
  }

  // ---- is_descendant -------------------------------------------------------------------

  lemma ParentFound(t: Table, i: nat)
    requires Valid(t) && Linked(t) && i < |t.objs| && t.objs[i].alive && t.objs[i].parent != 0
    ensures var o := t.objs[i]; var p := ByHandle(t.objs, o.parent);
      p != -1 && t.objs[p].si == o.si && t.objs[p].path == Above(o.path) && |o.path| > 1
  {
    assert ParentIs(t, i);
    var k := ByPath(t.objs, t.objs[i].si, Above(t.objs[i].path));
    HandleFound(t, k);
  }

  lemma HandleFound(t: Table, k: nat)
    requires Valid(t) && k < |t.objs| && t.objs[k].alive
    ensures ByHandle(t.objs, t.objs[k].handle) == k
  {}

  /** The walk up the parents from entry `i`. */
  function Climbs(t: Table, i: nat, ancestor: nat): bool
    requires Valid(t) && Linked(t) && i < |t.objs| && t.objs[i].alive
    decreases |t.objs[i].path|
  {
    var o := t.objs[i];
    o.parent != 0 &&
    (o.parent == ancestor ||
     (ParentFound(t, i);
      Climbs(t, ByHandle(t.objs, o.parent), ancestor)))
  }

  function IsDescendant(t: Table, handle: nat, ancestor: nat): bool
    requires Valid(t) && Linked(t)
  {
    ByHandle(t.objs, handle) != -1 && Climbs(t, ByHandle(t.objs, handle), ancestor)
  }

  predicate StrictlyBelow(path: Path, dir: Path) {
    |dir| < |path| && path[..|dir|] == dir
  }

  /** Entry `a` is the ancestor named, in the same store, and `i` is strictly below it. */
  ghost predicate Holds(t: Table, a: nat, i: nat, ancestor: nat)
    requires a < |t.objs| && i < |t.objs|
  {
    var x, o := t.objs[a], t.objs[i];
    x.alive && x.handle == ancestor && x.si == o.si && StrictlyBelow(o.path, x.path)
  }

  lemma {:induction false} ClimbsIff(t: Table, i: nat, ancestor: nat)
    requires Valid(t) && LiveFirst(t) && Linked(t) && i < |t.objs| && t.objs[i].alive
    ensures Climbs(t, i, ancestor) <==> exists a :: 0 <= a < |t.objs| && Holds(t, a, i, ancestor)
    decreases |t.objs[i].path|
  {
    var o := t.objs[i];
    if o.parent == 0 {
      forall a | 0 <= a < |t.objs| ensures !Holds(t, a, i, ancestor) {
        assert ParentIs(t, i);
      }
    } else {
      ParentFound(t, i);
      var p := ByHandle(t.objs, o.parent);
      ClimbsIff(t, p, ancestor);
      if o.parent == ancestor {
        assert Holds(t, p, i, ancestor);
      } else {
        UpOne(t, i, p, ancestor);
      }
    }
  }

  lemma UpOne(t: Table, i: nat, p: nat, ancestor: nat)
    requires Valid(t) && LiveFirst(t) && i < |t.objs| && p < |t.objs| && t.objs[p].alive && t.objs[p].handle != ancestor
    requires t.objs[p].si == t.objs[i].si && t.objs[p].path == Above(t.objs[i].path) && |t.objs[i].path| > 1
    ensures (exists a :: 0 <= a < |t.objs| && Holds(t, a, p, ancestor)) <==> (exists a :: 0 <= a < |t.objs| && Holds(t, a, i, ancestor))
  {
    var o, q := t.objs[i], t.objs[p];
    forall a | 0 <= a < |t.objs| ensures Holds(t, a, p, ancestor) <==> Holds(t, a, i, ancestor) {
      var x := t.objs[a];
      if |x.path| < |o.path| - 1 {
        assert q.path[..|x.path|] == o.path[..|x.path|];
      } else if x.path == q.path && x.alive && x.si == q.si {
        OnlyLive(t, a, p);
      }
    }
  }

  lemma OnlyLive(t: Table, a: nat, b: nat)
    requires LiveFirst(t) && a < |t.objs| && b < |t.objs| && t.objs[a].alive && t.objs[b].alive
    requires t.objs[a].si == t.objs[b].si && t.objs[a].path == t.objs[b].path
    ensures a == b
  {
    assert ByPath(t.objs, t.objs[a].si, t.objs[a].path) == a;
  }

  /** It holds exactly when one path is strictly above the other in the same store. */
  lemma IsDescendantIff(t: Table, handle: nat, ancestor: nat)
    requires Valid(t) && LiveFirst(t) && Linked(t)
    ensures IsDescendant(t, handle, ancestor) <==>
      exists i, a :: 0 <= i < |t.objs| && 0 <= a < |t.objs| && t.objs[i].alive && t.objs[i].handle == handle && Holds(t, a, i, ancestor)
  {
    var k := ByHandle(t.objs, handle);
    if k != -1 {
      ClimbsIff(t, k, ancestor);
      forall i | 0 <= i < |t.objs| && t.objs[i].alive && t.objs[i].handle == handle ensures i == k {
        HandleFound(t, i);
      }
    }
  }

  // ---- rename ------------------------------------------------------------------------

  function Retagged(o: Obj, si: nat, old_: Path, neu: Path): Obj {
    if o.si == si && old_ <= o.path then o.(path := neu + o.path[|old_|..]) else o
  }

  function Retag(t: Table, si: nat, old_: Path, neu: Path): (u: Table)
    ensures |u.objs| == |t.objs| && forall i :: 0 <= i < |t.objs| ==> u.objs[i] == Retagged(t.objs[i], si, old_, neu)
  {
    t.(objs := seq(|t.objs|, i requires 0 <= i < |t.objs| => Retagged(t.objs[i], si, old_, neu)))
  }

  /** No entry, live or dead, is at or below a path. */
  ghost predicate Free(t: Table, si: nat, path: Path) {
    forall i :: 0 <= i < |t.objs| && t.objs[i].si == si ==> !(path <= t.objs[i].path)
  }

  lemma RetagValid(t: Table, si: nat, old_: Path, neu: Path)
    requires Valid(t) && neu != []
    ensures Valid(Retag(t, si, old_, neu))
  {
    var u := Retag(t, si, old_, neu);
    forall i | 0 <= i < |u.objs| ensures u.objs[i].handle == t.objs[i].handle && u.objs[i].path != [] {}
  }

  lemma MovedThere(t: Table, si: nat, old_: Path, neu: Path, below: Path, k: nat)
    requires k < |t.objs| && t.objs[k].si == si && t.objs[k].path == old_ + below
    ensures Retag(t, si, old_, neu).objs[k].si == si && Retag(t, si, old_, neu).objs[k].path == neu + below
    ensures Retag(t, si, old_, neu).objs[k].handle == t.objs[k].handle
  {
    assert (old_ + below)[|old_|..] == below;
  }

  /** What ends up at the new place was at the old one or was there already. */
  lemma OneOfTwo(t: Table, si: nat, old_: Path, neu: Path, below: Path, f: nat)
    requires f < |t.objs|
    requires Retag(t, si, old_, neu).objs[f].si == si && Retag(t, si, old_, neu).objs[f].path == neu + below
    ensures t.objs[f].si == si && (t.objs[f].path == old_ + below || t.objs[f].path == neu + below)
    ensures t.objs[f].path == old_ + below || !(old_ <= t.objs[f].path)
  {
    var o := t.objs[f];
    if old_ <= o.path {
      var s := o.path[|old_|..];
      assert (neu + s)[|neu|..] == (neu + below)[|neu|..];
      assert o.path == old_ + s && s == below;
    }
  }

  /** Where nothing was at or below the new path, the first entry moved there is the first. */
  lemma RetagMoves(t: Table, si: nat, old_: Path, neu: Path, below: Path)
    requires Free(t, si, neu) && ByPath(t.objs, si, old_ + below) != -1
    ensures var u, k := Retag(t, si, old_, neu), ByPath(t.objs, si, old_ + below);
      ByPath(u.objs, si, neu + below) == k && u.objs[k].handle == t.objs[k].handle
  {
    var u, k := Retag(t, si, old_, neu), ByPath(t.objs, si, old_ + below);
    MovedThere(t, si, old_, neu, below, k);
    forall f | 0 <= f < k ensures !(u.objs[f].si == si && u.objs[f].path == neu + below) {
      if u.objs[f].si == si && u.objs[f].path == neu + below {
        OneOfTwo(t, si, old_, neu, below, f);
      }
    }
    FirstIs(u.objs, si, neu + below, k);
  }

  /** A rename keeps the handle of everything it moved, provided nothing in the table, live or
      dead, was at or below the new path: after the retag and a rescan of the renamed store, the
      entry at the new place is live under the old handle. */
  lemma RenameKeepsHandles(t: Table, si: nat, old_: Path, neu: Path, below: Path, stores: seq<Kids>, m: nat)
    requires Valid(t) && Free(t, si, neu) && neu != [] && old_ != [] && ByPath(t.objs, si, old_ + below) != -1
    requires WellNamedAll(stores) && si < |stores| && m < |Visits(stores[si], [])|
    requires Visits(stores[si], [])[m].path == neu + below
    ensures var u := Rescan(Retag(t, si, old_, neu), stores);
      && HandleAt(u, si, neu + below) == HandleAt(t, si, old_ + below)
      && ByPath(u.objs, si, neu + below) != -1 && u.objs[ByPath(u.objs, si, neu + below)].alive
  {
    var r := Retag(t, si, old_, neu);
    var u := Rescan(r, stores);
    RetagValid(t, si, old_, neu);
    RetagMoves(t, si, old_, neu, below);
    RescanShows(r, stores);
    HandleKept(r, u, si, neu + below);
    assert StoreShown(u, si, stores[si]);
    assert Settled(u, si, Visits(stores[si], [])[m]);
  }

  /** The earlier of two places in the table; -1 is no place. */
  function Earlier(k: int, n: int): int {
    if n == -1 || (k != -1 && k < n) then k else n
  }

  /** After the retag the first entry at the new place is the first of those moved there and
      those that were there. */
  lemma RetagFirst(t: Table, si: nat, old_: Path, neu: Path, below: Path)
    requires !(old_ <= neu) && !(neu <= old_) && ByPath(t.objs, si, old_ + below) != -1
    ensures ByPath(Retag(t, si, old_, neu).objs, si, neu + below)
         == Earlier(ByPath(t.objs, si, old_ + below), ByPath(t.objs, si, neu + below))
  {
    var u, k, n := Retag(t, si, old_, neu), ByPath(t.objs, si, old_ + below), ByPath(t.objs, si, neu + below);
    MovedThere(t, si, old_, neu, below, k);
    if n != -1 {
      StaysThere(t, si, old_, neu, below, n);
    }
    forall f | 0 <= f < Earlier(k, n) ensures !(u.objs[f].si == si && u.objs[f].path == neu + below) {
      if u.objs[f].si == si && u.objs[f].path == neu + below {
        OneOfTwo(t, si, old_, neu, below, f);
      }
    }
    FirstIs(u.objs, si, neu + below, Earlier(k, n));
  }

  /** Without that proviso, for every rename of one path to another, neither above the other,
      and the rescan that follows it: the handle is kept if and only if no entry at the new
      place comes before the moved one in the table; otherwise that entry's handle takes over. */
  lemma RenameHandleIff(t: Table, si: nat, old_: Path, neu: Path, below: Path, stores: seq<Kids>)
    requires Valid(t) && WellNamedAll(stores)
    requires !(old_ <= neu) && !(neu <= old_) && ByPath(t.objs, si, old_ + below) != -1
    ensures var k, n, h := ByPath(t.objs, si, old_ + below), ByPath(t.objs, si, neu + below),
                           HandleAt(Rescan(Retag(t, si, old_, neu), stores), si, neu + below);
      && (h == HandleAt(t, si, old_ + below) <==> n == -1 || k < n)
      && (n != -1 && n < k ==> h == HandleAt(t, si, neu + below))
  {
    var r := Retag(t, si, old_, neu);
    RetagValid(t, si, old_, neu);
    RetagFirst(t, si, old_, neu, below);
    RetagHandle(t, si, old_, neu, below);
    RescanShows(r, stores);
    HandleKept(r, Rescan(r, stores), si, neu + below);
  }

  lemma RetagHandle(t: Table, si: nat, old_: Path, neu: Path, below: Path)
    requires Valid(t) && !(old_ <= neu) && !(neu <= old_) && ByPath(t.objs, si, old_ + below) != -1
    ensures var k, n, h := ByPath(t.objs, si, old_ + below), ByPath(t.objs, si, neu + below), HandleAt(Retag(t, si, old_, neu), si, neu + below);
      && (h == HandleAt(t, si, old_ + below) <==> n == -1 || k < n)
      && (n != -1 && n < k ==> h == HandleAt(t, si, neu + below))
  {
    var k, n := ByPath(t.objs, si, old_ + below), ByPath(t.objs, si, neu + below);
    RetagFirst(t, si, old_, neu, below);
    NotBoth(t, si, old_, neu, below);
    var e := Earlier(k, n);
    assert Retag(t, si, old_, neu).objs[e].handle == t.objs[e].handle;
  }

  lemma NotBoth(t: Table, si: nat, old_: Path, neu: Path, below: Path)
    requires !(old_ <= neu) && !(neu <= old_)
    ensures old_ + below != neu + below && old_ + below != [] && neu + below != []
  {
    if old_ + below == neu + below {
      Comparable(old_, neu, below);
      assert false;
    }
  }

  lemma StaysThere(t: Table, si: nat, old_: Path, neu: Path, below: Path, n: nat)
    requires !(old_ <= neu) && !(neu <= old_) && n < |t.objs| && t.objs[n].si == si && t.objs[n].path == neu + below
    ensures Retag(t, si, old_, neu).objs[n] == t.objs[n]
  {
    if old_ <= neu + below {
      Comparable(old_, neu, below);
      assert false;
    }
  }

  lemma Comparable(a: Path, b: Path, s: Path)
    requires a <= b + s
    ensures a <= b || b <= a
  {
    if |a| <= |b| {
      assert a == (b + s)[..|a|] == b[..|a|];
    } else {
      assert b == (b + s)[..|b|] == a[..|b|];
    }
  }

  /** The retag changes the path of exactly this store's entries at or below the old path, and
      nothing else of any entry. */
  lemma RetagTouches(t: Table, si: nat, old_: Path, neu: Path, i: nat)
    requires i < |t.objs|
    ensures var o, n := t.objs[i], Retag(t, si, old_, neu).objs[i];
      && (o.si != si || |o.path| < |old_| || o.path[..|old_|] != old_ ==> n == o)
      && (o.si == si && |old_| <= |o.path| && o.path[..|old_|] == old_ ==>
           n == Obj(o.handle, o.parent, o.si, neu + o.path[|old_|..], o.isDir, o.alive))
    ensures Retag(t, si, old_, neu).next == t.next
  {}

  /** A rename leaves the handles of every other store's paths as they are, live ones included
      after the rescan. */
  lemma RenameOtherStore(t: Table, si: nat, old_: Path, neu: Path, stores: seq<Kids>, sj: nat, path: Path)
    requires Valid(t) && WellNamedAll(stores) && neu != [] && sj != si && ByPath(t.objs, sj, path) != -1
    ensures HandleAt(Rescan(Retag(t, si, old_, neu), stores), sj, path) == HandleAt(t, sj, path)
    ensures sj < |stores| && (exists m :: 0 <= m < |Visits(stores[sj], [])| && Visits(stores[sj], [])[m].path == path) ==>
      var u := Rescan(Retag(t, si, old_, neu), stores); u.objs[ByPath(u.objs, sj, path)].alive
  {
    var r, k := Retag(t, si, old_, neu), ByPath(t.objs, sj, path);
    RetagValid(t, si, old_, neu);
    forall i | 0 <= i <= k ensures r.objs[i].si == sj ==> r.objs[i] == t.objs[i] {
      RetagTouches(t, si, old_, neu, i);
    }
    RetagTouches(t, si, old_, neu, k);
    FirstIs(r.objs, sj, path, k);
    RescanShows(r, stores);
    HandleKept(r, Rescan(r, stores), sj, path);
    if sj < |stores| && exists m :: 0 <= m < |Visits(stores[sj], [])| && Visits(stores[sj], [])[m].path == path {
      var m :| 0 <= m < |Visits(stores[sj], [])| && Visits(stores[sj], [])[m].path == path;
      assert StoreShown(Rescan(r, stores), sj, stores[sj]);
      assert Settled(Rescan(r, stores), sj, Visits(stores[sj], [])[m]);
    }
  }

  // ---- every run -----------------------------------------------------------------------

  /** What the table goes through: a rescan of the stores, or a rename or move within a store,
      which the class rescans at once. */
  datatype Change = Rescanned(stores: seq<Kids>) | Renamed(si: nat, old_: Path, neu: Path, stores: seq<Kids>)

  function Changed(t: Table, c: Change): Table {
    Rescan(if c.Renamed? then Retag(t, c.si, c.old_, c.neu) else t, c.stores)
  }

  function ChangedAll(t: Table, cs: seq<Change>): Table {
    if cs == [] then t else Changed(ChangedAll(t, cs[..|cs| - 1]), cs[|cs| - 1])
  }

  ghost predicate Proper(c: Change) {
    WellNamedAll(c.stores) && (c.Renamed? ==> c.neu != [])
  }

  /** No two live entries share a handle or a path. */
  ghost predicate OneEach(t: Table) {
    forall i, j :: 0 <= i < j < |t.objs| && t.objs[i].alive && t.objs[j].alive ==>
      t.objs[i].handle != t.objs[j].handle && (t.objs[i].si != t.objs[j].si || t.objs[i].path != t.objs[j].path)
  }

  /** is_descendant, for every pair of handles. */
  ghost predicate WalkMeansBelow(t: Table)
    requires Valid(t) && Linked(t)
  {
    forall h: nat, a: nat :: IsDescendant(t, h, a) <==> BelowIn(t, h, a)
  }

  /** The live entry `handle` is strictly below the live entry `ancestor`. */
  ghost predicate BelowIn(t: Table, handle: nat, ancestor: nat) {
    exists i, a :: 0 <= i < |t.objs| && 0 <= a < |t.objs| && t.objs[i].alive && t.objs[i].handle == handle && Holds(t, a, i, ancestor)
  }

  lemma {:induction false} RunValid(cs: seq<Change>)
    requires forall i :: 0 <= i < |cs| ==> Proper(cs[i])
    ensures Valid(ChangedAll(Table([], 1), cs))
  {
    if cs != [] {
      var front, c := cs[..|cs| - 1], cs[|cs| - 1];
      assert forall i :: 0 <= i < |front| ==> front[i] == cs[i];
      RunValid(front);
      var t := ChangedAll(Table([], 1), front);
      assert Proper(c);
      if c.Renamed? {
        RetagValid(t, c.si, c.old_, c.neu);
      }
      RescanShows(if c.Renamed? then Retag(t, c.si, c.old_, c.neu) else t, c.stores);
    }
  }

  /** From the empty table, after any rescans and renames, with renames onto dead entries among
      them: the live entries are exactly the stores' paths, each once, each parent handle names
      the live directory of the path, and is_descendant is the order of the paths. */
  lemma EveryRun(cs: seq<Change>)
    requires cs != [] && forall i :: 0 <= i < |cs| ==> Proper(cs[i])
    ensures var t, stores := ChangedAll(Table([], 1), cs), cs[|cs| - 1].stores;
      Valid(t) && ShownUpTo(t, stores, |stores|) && OneEach(t) && Linked(t) && WalkMeansBelow(t)
  {
    var front, c := cs[..|cs| - 1], cs[|cs| - 1];
    var t, u := ChangedAll(Table([], 1), front), ChangedAll(Table([], 1), cs);
    assert forall i :: 0 <= i < |front| ==> front[i] == cs[i];
    RunValid(front);
    assert Proper(c);
    if c.Renamed? {
      RetagValid(t, c.si, c.old_, c.neu);
    }
    var r := if c.Renamed? then Retag(t, c.si, c.old_, c.neu) else t;
    RescanShows(r, c.stores);
    ShownIsLinked(u, c.stores);
    forall h: nat, a: nat ensures IsDescendant(u, h, a) <==> BelowIn(u, h, a) {
      IsDescendantIff(u, h, a);
    }
  }

  /** A file at the top of a store, before the entries `rest`. */
  function Before(name: string, rest: Kids): Kids {
    More(name, false, End, rest)
  }

  lemma FileVisited(name: string, rest: Kids)
    ensures Visits(Before(name, rest), []) == [Visit([name], false)] + Visits(rest, [])
  {
    assert [] + [name] == [name];
    assert [Visit([name], false)] + ([] + Visits(rest, [])) == [Visit([name], false)] + Visits(rest, []);
  }

  lemma SettleCons(t: Table, v: Visit, vs: seq<Visit>)
    ensures SettleAll(t, 0, [v] + vs) == SettleAll(Settle(t, 0, v), 0, vs)
  {
    assert ([v] + vs)[1..] == vs;
  }

  lemma ChangedSnoc(t: Table, cs: seq<Change>, c: Change)
    ensures ChangedAll(t, cs + [c]) == Changed(ChangedAll(t, cs), c)
  {
    assert (cs + [c])[..|cs|] == cs;
  }

  /** Rescanning a store whose only entry is a file. */
  lemma OneFile(t: Table, name: string)
    ensures Rescan(t, [Before(name, End)]) == Settle(t.(objs := Killed(t.objs)), 0, Visit([name], false))
  {
    var d, k := t.(objs := Killed(t.objs)), Before(name, End);
    var v := Visit([name], false);
    FileVisited(name, End);
    SettleCons(d, v, []);
    assert ScanStores(d, [k], 0) == ScanStores(SettleAll(d, 0, Visits(k, [])), [k], 1);
    assert ScanStores(Settle(d, 0, v), [k], 1) == Settle(d, 0, v);
  }

  lemma TwoFiles(t: Table, x: string, y: string)
    ensures Rescan(t, [Before(x, Before(y, End))])
         == Settle(Settle(t.(objs := Killed(t.objs)), 0, Visit([x], false)), 0, Visit([y], false))
  {
    var d, k := t.(objs := Killed(t.objs)), Before(x, Before(y, End));
    var v, w := Visit([x], false), Visit([y], false);
    FileVisited(y, End);
    FileVisited(x, Before(y, End));
    SettleCons(d, v, [w] + []);
    SettleCons(Settle(d, 0, v), w, []);
    assert ScanStores(d, [k], 0) == ScanStores(SettleAll(d, 0, Visits(k, [])), [k], 1);
    assert ScanStores(Settle(Settle(d, 0, v), 0, w), [k], 1) == Settle(Settle(d, 0, v), 0, w);
  }

  lemma ChangedThree(t: Table, a: Change, b: Change, c: Change)
    ensures ChangedAll(t, [a] + [b] + [c]) == Changed(Changed(Changed(t, a), b), c)
  {
    assert [] + [a] == [a];
    ChangedSnoc(t, [], a);
    ChangedSnoc(t, [a], b);
    ChangedSnoc(t, [a] + [b], c);
  }

  /** A run in which a path is in the table twice: x is deleted and y renamed to x. The live
      entry for x is the dead one's, under its old handle; y's handle is gone. */
  lemma RenameOntoDead(t: Table, x: string, y: string)
    requires x != y && t == Table([], 1)
    ensures ChangedAll(t, [Rescanned([Before(x, Before(y, End))])] + [Rescanned([Before(y, End)])] + [Renamed(0, [y], [x], [Before(x, End)])]).objs
         == [Obj(1, 0, 0, [x], false, true), Obj(2, 0, 0, [x], false, false)]
  {
    ChangedThree(t, Rescanned([Before(x, Before(y, End))]), Rescanned([Before(y, End)]), Renamed(0, [y], [x], [Before(x, End)]));
    var t1 := Rescan(t, [Before(x, Before(y, End))]);
    AfterCreate(t, x, y);
    AfterDelete(t1, x, y);
    AfterRename(Rescan(t1, [Before(y, End)]), x, y);
  }

  lemma AfterCreate(t: Table, x: string, y: string)
    requires x != y && t == Table([], 1)
    ensures Rescan(t, [Before(x, Before(y, End))]).objs == [Obj(1, 0, 0, [x], false, true), Obj(2, 0, 0, [y], false, true)]
  {
    TwoFiles(t, x, y);
    assert [x][0] != [y][0];
    var one := Settle(t.(objs := Killed(t.objs)), 0, Visit([x], false));
    assert one == Table([Obj(1, 0, 0, [x], false, true)], 2);
    assert ByPath(one.objs, 0, [y]) == -1;
  }

  lemma AfterDelete(t: Table, x: string, y: string)
    requires x != y && t.objs == [Obj(1, 0, 0, [x], false, true), Obj(2, 0, 0, [y], false, true)]
    ensures Rescan(t, [Before(y, End)]).objs == [Obj(1, 0, 0, [x], false, false), Obj(2, 0, 0, [y], false, true)]
  {
    assert [x][0] != [y][0];
    OneFile(t, y);
    FirstIs(Killed(t.objs), 0, [y], 1);
  }

  lemma AfterRename(t: Table, x: string, y: string)
    requires x != y && t.objs == [Obj(1, 0, 0, [x], false, false), Obj(2, 0, 0, [y], false, true)]
    ensures Rescan(Retag(t, 0, [y], [x]), [Before(x, End)]).objs == [Obj(1, 0, 0, [x], false, true), Obj(2, 0, 0, [x], false, false)]
  {
    var r := Retag(t, 0, [y], [x]);
    assert [x][0] != [y][0] && [x] + [y][1..] == [x];
    assert r.objs == [Obj(1, 0, 0, [x], false, false), Obj(2, 0, 0, [x], false, true)];
    OneFile(r, x);
    FirstIs(Killed(r.objs), 0, [x], 0);
  }
}
