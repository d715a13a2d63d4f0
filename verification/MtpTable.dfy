/** The MTP object table: handles for the paths of the stores, kept over rescans and renames. */
module MtpTable {

  /** A path is its names, outermost first; [] is a store's root. */
  type Path = seq<string>

  /** A directory's entries in the order they are scanned. */
  datatype Kids = End | More(name: string, folder: bool, inner: Kids, rest: Kids)

  function Names(k: Kids): set<string> {
    if k.End? then {} else {k.name} + Names(k.rest)
  }

  /** Entries of one directory have different names; only folders have entries. */
  ghost predicate WellNamed(k: Kids) {
    k.More? ==>
      && k.name !in Names(k.rest) && (!k.folder ==> k.inner.End?)
      && WellNamed(k.inner) && WellNamed(k.rest)
  }

  datatype Visit = Visit(path: Path, folder: bool)

  /** What a scan meets, in order: an entry, what is below it, then the entries after it. */
  function Visits(k: Kids, rel: Path): seq<Visit> {
    if k.End? then []
    else [Visit(rel + [k.name], k.folder)] + (Visits(k.inner, rel + [k.name]) + Visits(k.rest, rel))
  }

  // ---- the table ---------------------------------------------------------------------

  datatype Obj = Obj(handle: nat, parent: nat, si: nat, path: Path, isDir: bool, alive: bool)

  datatype Table = Table(objs: seq<Obj>, next: nat)

  /** obj_by_path: live or dead. */
  function ByPath(objs: seq<Obj>, si: nat, path: Path): (k: int)
    ensures k == -1 <==> forall i :: 0 <= i < |objs| ==> !(objs[i].si == si && objs[i].path == path)
    ensures k != -1 ==> 0 <= k < |objs| && objs[k].si == si && objs[k].path == path
    ensures forall i :: 0 <= i < k ==> !(objs[i].si == si && objs[i].path == path)
  {
    if objs == [] then -1
    else if objs[0].si == si && objs[0].path == path then 0
    else if ByPath(objs[1..], si, path) == -1 then -1 else 1 + ByPath(objs[1..], si, path)
  }

  /** obj_by_handle: live ones only. */
  function ByHandle(objs: seq<Obj>, handle: nat): (k: int)
    ensures k == -1 <==> forall i :: 0 <= i < |objs| ==> !(objs[i].alive && objs[i].handle == handle)
    ensures k != -1 ==> 0 <= k < |objs| && objs[k].alive && objs[k].handle == handle
    ensures forall i :: 0 <= i < k ==> !(objs[i].alive && objs[i].handle == handle)
  {
    if objs == [] then -1
    else if objs[0].alive && objs[0].handle == handle then 0
    else if ByHandle(objs[1..], handle) == -1 then -1 else 1 + ByHandle(objs[1..], handle)
  }

  /** obj_upsert */
  function Upsert(t: Table, si: nat, path: Path, parent: nat, isDir: bool): Table {
    var k := ByPath(t.objs, si, path);
    if k == -1 then Table(t.objs + [Obj(t.next, parent, si, path, isDir, true)], t.next + 1)
    else t.(objs := t.objs[k := t.objs[k].(parent := parent, isDir := isDir, alive := true)])
  }

  /** The handle the table has for a path; 0 for a store's root. */
  function HandleAt(t: Table, si: nat, path: Path): nat {
    if path == [] || ByPath(t.objs, si, path) == -1 then 0 else t.objs[ByPath(t.objs, si, path)].handle
  }

  function Above(path: Path): Path {
    if path == [] then [] else path[..|path| - 1]
  }

  function Settle(t: Table, si: nat, v: Visit): Table {
    Upsert(t, si, v.path, HandleAt(t, si, Above(v.path)), v.folder)
  }

  function SettleAll(t: Table, si: nat, vs: seq<Visit>): Table
    decreases |vs|
  {
    if vs == [] then t else SettleAll(Settle(t, si, vs[0]), si, vs[1..])
  }

  function Killed(objs: seq<Obj>): (r: seq<Obj>)
    ensures |r| == |objs|
  {
    seq(|objs|, i requires 0 <= i < |objs| => objs[i].(alive := false))
  }

  function ScanStores(t: Table, stores: seq<Kids>, si: nat): Table
    requires si <= |stores|
    decreases |stores| - si
  {
    if si == |stores| then t else ScanStores(SettleAll(t, si, Visits(stores[si], [])), stores, si + 1)
  }

  function Rescan(t: Table, stores: seq<Kids>): Table {
    ScanStores(t.(objs := Killed(t.objs)), stores, 0)
  }

  // ---- the table's invariant -------------------------------------------------------------

  /** Handles are distinct and handed out. A path can be in the table twice: a rename onto a
      path that a dead entry still has leaves both. */
  ghost predicate Valid(t: Table) {
    && t.next > 0
    && (forall i :: 0 <= i < |t.objs| ==> 0 < t.objs[i].handle < t.next && t.objs[i].path != [])
    && (forall i, j :: 0 <= i < j < |t.objs| ==> t.objs[i].handle != t.objs[j].handle)
  }

  /** Every entry of `t` is still there in `u`, with its handle and its path. */
  ghost predicate Keeps(t: Table, u: Table) {
    && |t.objs| <= |u.objs| && t.next <= u.next
    && forall i :: 0 <= i < |t.objs| ==> SameEntry(t.objs[i], u.objs[i])
  }

  ghost predicate SameEntry(a: Obj, b: Obj) {
    a.handle == b.handle && a.si == b.si && a.path == b.path
  }

  /** A live entry is the first of its path, so that every search by path finds it. */
  ghost predicate LiveFirst(t: Table) {
    forall i :: 0 <= i < |t.objs| && t.objs[i].alive ==> ByPath(t.objs, t.objs[i].si, t.objs[i].path) == i
  }

  lemma FirstIs(objs: seq<Obj>, si: nat, path: Path, k: nat)
    requires k < |objs| && objs[k].si == si && objs[k].path == path
    requires forall i :: 0 <= i < k ==> !(objs[i].si == si && objs[i].path == path)
    ensures ByPath(objs, si, path) == k
  {}

  lemma HandleKept(t: Table, u: Table, si: nat, path: Path)
    requires Keeps(t, u) && ByPath(t.objs, si, path) != -1
    ensures ByPath(u.objs, si, path) == ByPath(t.objs, si, path) && HandleAt(u, si, path) == HandleAt(t, si, path)
  {
    var k := ByPath(t.objs, si, path);
    assert SameEntry(t.objs[k], u.objs[k]);
    forall i | 0 <= i < k ensures !(u.objs[i].si == si && u.objs[i].path == path) {
      assert SameEntry(t.objs[i], u.objs[i]);
    }
    FirstIs(u.objs, si, path, k);
  }

  lemma UpsertValid(t: Table, si: nat, path: Path, parent: nat, isDir: bool)
    requires Valid(t) && path != []
    ensures var u := Upsert(t, si, path, parent, isDir); Valid(u) && Keeps(t, u)
  {
    var u := Upsert(t, si, path, parent, isDir);
    forall i | 0 <= i < |t.objs| ensures SameEntry(t.objs[i], u.objs[i]) {}
    forall i, j | 0 <= i < j < |u.objs| ensures u.objs[i].handle != u.objs[j].handle {
      if j < |t.objs| {
        assert SameEntry(t.objs[i], u.objs[i]) && SameEntry(t.objs[j], u.objs[j]);
      }
    }
  }

  lemma UpsertKeeps(t: Table, si: nat, path: Path, parent: nat, isDir: bool)
    requires Valid(t) && path != []
    ensures var u := Upsert(t, si, path, parent, isDir);
      && Valid(u) && Keeps(t, u) && ByPath(u.objs, si, path) != -1
      && u.objs[ByPath(u.objs, si, path)].alive && u.objs[ByPath(u.objs, si, path)].isDir == isDir
      && u.objs[ByPath(u.objs, si, path)].parent == parent
      && (forall i :: 0 <= i < |u.objs| && i != ByPath(u.objs, si, path) ==> i < |t.objs| && u.objs[i] == t.objs[i])
  {
    UpsertValid(t, si, path, parent, isDir);
    UpsertAt(t, si, path, parent, isDir);
  }

  lemma UpsertAt(t: Table, si: nat, path: Path, parent: nat, isDir: bool)
    ensures var k := ByPath(t.objs, si, path);
      ByPath(Upsert(t, si, path, parent, isDir).objs, si, path) == if k == -1 then |t.objs| else k
  {
    var u, k := Upsert(t, si, path, parent, isDir), ByPath(t.objs, si, path);
    FirstIs(u.objs, si, path, if k == -1 then |t.objs| else k);
  }

  lemma UpsertLive(t: Table, si: nat, path: Path, parent: nat, isDir: bool)
    requires Valid(t) && path != [] && LiveFirst(t)
    ensures LiveFirst(Upsert(t, si, path, parent, isDir))
  {
    var u := Upsert(t, si, path, parent, isDir);
    UpsertKeeps(t, si, path, parent, isDir);
    forall i | 0 <= i < |u.objs| && u.objs[i].alive ensures ByPath(u.objs, u.objs[i].si, u.objs[i].path) == i {
      if i != ByPath(u.objs, si, path) {
        HandleKept(t, u, u.objs[i].si, u.objs[i].path);
      } else {
        assert u.objs[i].si == si && u.objs[i].path == path;
      }
    }
  }

  // ---- what a scan does ------------------------------------------------------------------

  /** The entry of visit `v` is live, of the right kind, and hangs under its directory. */
  ghost predicate Settled(t: Table, si: nat, v: Visit) {
    var k := ByPath(t.objs, si, v.path);
    k != -1 && t.objs[k].alive && t.objs[k].isDir == v.folder && t.objs[k].parent == HandleAt(t, si, Above(v.path))
  }

  /** The directory of a visit is a root or in the table. */
  ghost predicate Hung(t: Table, si: nat, v: Visit) {
    v.path != [] && (Above(v.path) == [] || ByPath(t.objs, si, Above(v.path)) != -1)
  }

  /** Each visit finds its directory when its turn comes. */
  ghost predicate AllHung(t: Table, si: nat, vs: seq<Visit>)
    decreases |vs|
  {
    vs == [] || (Hung(t, si, vs[0]) && AllHung(Settle(t, si, vs[0]), si, vs[1..]))
  }

  ghost predicate Distinct(vs: seq<Visit>) {
    forall i, j :: 0 <= i < j < |vs| ==> vs[i].path != vs[j].path
  }

  /** The visits made so far stay settled, and only visited entries change. */
  lemma SettleOne(t: Table, si: nat, v: Visit, w: Visit)
    requires Valid(t) && v.path != []
    ensures var u := Settle(t, si, v);
      && Valid(u) && Keeps(t, u) && (LiveFirst(t) ==> LiveFirst(u))
      && (w.path != v.path && Settled(t, si, w) && Hung(t, si, w) ==> Settled(u, si, w))
      && (Hung(t, si, w) ==> Hung(u, si, w))
      && (Hung(t, si, v) ==> Settled(u, si, v))
  {
    var u := Settle(t, si, v);
    UpsertKeeps(t, si, v.path, HandleAt(t, si, Above(v.path)), v.folder);
    if LiveFirst(t) {
      UpsertLive(t, si, v.path, HandleAt(t, si, Above(v.path)), v.folder);
    }
    if Above(v.path) != [] && ByPath(t.objs, si, Above(v.path)) != -1 {
      HandleKept(t, u, si, Above(v.path));
    }
    if Above(w.path) != [] && ByPath(t.objs, si, Above(w.path)) != -1 {
      HandleKept(t, u, si, Above(w.path));
    }
    if w.path != v.path && Settled(t, si, w) {
      var k := ByPath(t.objs, si, w.path);
      HandleKept(t, u, si, w.path);
      assert u.objs[k] == t.objs[k];
    }
  }

  lemma KeepsTrans(t: Table, u: Table, w: Table)
    requires Keeps(t, u) && Keeps(u, w)
    ensures Keeps(t, w)
  {
    forall i | 0 <= i < |t.objs| ensures SameEntry(t.objs[i], w.objs[i]) {
      assert SameEntry(t.objs[i], u.objs[i]) && SameEntry(u.objs[i], w.objs[i]);
    }
  }

  ghost predicate Below(vs: seq<Visit>) {
    forall i :: 0 <= i < |vs| ==> vs[i].path != []
  }

  lemma {:induction false} SettleAllKeeps(t: Table, si: nat, vs: seq<Visit>)
    requires Valid(t) && Below(vs)
    ensures var u := SettleAll(t, si, vs); Valid(u) && Keeps(t, u) && (LiveFirst(t) ==> LiveFirst(u))
    decreases |vs|
  {
    if vs != [] {
      SettleOne(t, si, vs[0], vs[0]);
      SettleAllKeeps(Settle(t, si, vs[0]), si, vs[1..]);
      KeepsTrans(t, Settle(t, si, vs[0]), SettleAll(t, si, vs));
    }
  }

  /** A visit already settled stays so while others are made. */
  lemma {:induction false} StaysSettled(t: Table, si: nat, vs: seq<Visit>, w: Visit)
    requires Valid(t) && Settled(t, si, w) && Hung(t, si, w) && Below(vs)
    requires forall i :: 0 <= i < |vs| ==> vs[i].path != w.path
    ensures Settled(SettleAll(t, si, vs), si, w)
    decreases |vs|
  {
    if vs != [] {
      SettleOne(t, si, vs[0], w);
      StaysSettled(Settle(t, si, vs[0]), si, vs[1..], w);
    }
  }

  lemma {:induction false} AllSettled(t: Table, si: nat, vs: seq<Visit>, i: nat)
    requires Valid(t) && AllHung(t, si, vs) && Distinct(vs) && i < |vs| && Below(vs)
    ensures Settled(SettleAll(t, si, vs), si, vs[i])
    decreases |vs|
  {
    DistinctTail(vs);
    if i == 0 {
      FirstSettled(t, si, vs[0], vs[1..]);
    } else {
      SettleValid(t, si, vs[0]);
      AllSettled(Settle(t, si, vs[0]), si, vs[1..], i - 1);
    }
  }

  lemma SettleValid(t: Table, si: nat, v: Visit)
    requires Valid(t) && v.path != []
    ensures Valid(Settle(t, si, v))
  {
    UpsertValid(t, si, v.path, HandleAt(t, si, Above(v.path)), v.folder);
  }

  lemma FirstSettled(t: Table, si: nat, v: Visit, rest: seq<Visit>)
    requires Valid(t) && Hung(t, si, v) && Below(rest) && forall i :: 0 <= i < |rest| ==> rest[i].path != v.path
    ensures Settled(SettleAll(Settle(t, si, v), si, rest), si, v)
  {
    SettleOne(t, si, v, v);
    StaysSettled(Settle(t, si, v), si, rest, v);
  }

  lemma DistinctTail(vs: seq<Visit>)
    requires vs != [] && Distinct(vs) && Below(vs)
    ensures Distinct(vs[1..]) && Below(vs[1..]) && forall i :: 0 <= i < |vs[1..]| ==> vs[1..][i].path != vs[0].path
  {}

  ghost predicate Met(o: Obj, si: nat, vs: seq<Visit>) {
    o.si == si && exists j :: 0 <= j < |vs| && vs[j].path == o.path
  }

  /** Only visited entries change. */
  lemma {:induction false} OthersUnchanged(t: Table, si: nat, vs: seq<Visit>, i: nat)
    requires Valid(t) && Below(vs) && i < |SettleAll(t, si, vs).objs|
    ensures Met(SettleAll(t, si, vs).objs[i], si, vs) || (i < |t.objs| && SettleAll(t, si, vs).objs[i] == t.objs[i])
    decreases |vs|
  {
    if vs != [] {
      var u, o := Settle(t, si, vs[0]), SettleAll(t, si, vs).objs[i];
      SettleOne(t, si, vs[0], vs[0]);
      OthersUnchanged(u, si, vs[1..], i);
      if Met(o, si, vs[1..]) {
        var j :| 0 <= j < |vs[1..]| && vs[1..][j].path == o.path;
        assert vs[j + 1].path == o.path;
      } else {
        OneChanges(t, si, vs[0], i);
      }
    }
  }

  lemma OneChanges(t: Table, si: nat, v: Visit, i: nat)
    requires Valid(t) && v.path != [] && i < |Settle(t, si, v).objs|
    ensures var o := Settle(t, si, v).objs[i]; (o.si == si && o.path == v.path) || (i < |t.objs| && o == t.objs[i])
  {}

  // ---- the visits of a tree ---------------------------------------------------------------

  /** A path below `rel` that starts with one of the names. */
  ghost predicate Under(path: Path, rel: Path, names: set<string>) {
    |path| > |rel| && path[..|rel|] == rel && path[|rel|] in names
  }

  lemma {:induction false} VisitsUnder(k: Kids, rel: Path)
    ensures forall i :: 0 <= i < |Visits(k, rel)| ==> Under(Visits(k, rel)[i].path, rel, Names(k))
    ensures Below(Visits(k, rel))
  {
    if k.More? {
      var down := rel + [k.name];
      VisitsUnder(k.inner, down);
      VisitsUnder(k.rest, rel);
      var a, b := Visits(k.inner, down), Visits(k.rest, rel);
      forall i | 0 <= i < |a| ensures Under(a[i].path, rel, Names(k)) {
        assert a[i].path[..|down|][..|rel|] == a[i].path[..|rel|];
        assert a[i].path[..|down|][|rel|] == k.name;
      }
    }
  }

  lemma {:induction false} VisitsDistinct(k: Kids, rel: Path)
    requires WellNamed(k)
    ensures Distinct(Visits(k, rel))
  {
    if k.More? {
      var down := rel + [k.name];
      VisitsDistinct(k.inner, down);
      VisitsDistinct(k.rest, rel);
      VisitsUnder(k.inner, down);
      VisitsUnder(k.rest, rel);
      var a, b := Visits(k.inner, down), Visits(k.rest, rel);
      forall i | 0 <= i < |a| ensures a[i].path != down && |a[i].path| > |rel| && a[i].path[|rel|] == k.name {
        assert a[i].path[..|down|][|rel|] == k.name;
      }
      Three(Visit(down, k.folder), a, b, |rel|, k.name);
    }
  }

  lemma Three(v: Visit, a: seq<Visit>, b: seq<Visit>, at: nat, name: string)
    requires Distinct(a) && Distinct(b) && |v.path| == at + 1 && v.path[at] == name
    requires forall i :: 0 <= i < |a| ==> a[i].path != v.path && |a[i].path| > at && a[i].path[at] == name
    requires forall i :: 0 <= i < |b| ==> |b[i].path| > at && b[i].path[at] != name
    ensures Distinct([v] + (a + b))
  {}

  lemma {:induction false} HungAppend(t: Table, si: nat, a: seq<Visit>, b: seq<Visit>)
    requires AllHung(t, si, a) && AllHung(SettleAll(t, si, a), si, b)
    ensures AllHung(t, si, a + b) && SettleAll(t, si, a + b) == SettleAll(SettleAll(t, si, a), si, b)
    decreases |a|
  {
    if a == [] {
      assert a + b == b;
    } else {
      var whole := a + b;
      assert whole[1..] == a[1..] + b && whole[0] == a[0];
      HungAppend(Settle(t, si, a[0]), si, a[1..], b);
    }
  }

  ghost predicate Known(t: Table, si: nat, path: Path) {
    path == [] || ByPath(t.objs, si, path) != -1
  }

  lemma {:induction false} VisitsHung(t: Table, si: nat, k: Kids, rel: Path)
    requires Valid(t) && Known(t, si, rel)
    ensures AllHung(t, si, Visits(k, rel))
    decreases k
  {
    if k.More? {
      var down := rel + [k.name];
      var v := Visit(down, k.folder);
      assert Above(down) == rel;
      var u := Settle(t, si, v);
      SettleOne(t, si, v, v);
      VisitsHung(u, si, k.inner, down);
      var a, b := Visits(k.inner, down), Visits(k.rest, rel);
      var w := SettleAll(u, si, a);
      ScanKeepsKnown(t, u, si, k.inner, down, rel);
      VisitsHung(w, si, k.rest, rel);
      HungAppend(u, si, a, b);
      HungCons(t, si, v, a + b);
    }
  }

  lemma ScanKeepsKnown(t: Table, u: Table, si: nat, k: Kids, down: Path, rel: Path)
    requires Valid(t) && Valid(u) && Keeps(t, u) && Known(t, si, rel)
    ensures var w := SettleAll(u, si, Visits(k, down)); Valid(w) && Known(w, si, rel)
  {
    VisitsUnder(k, down);
    SettleAllKeeps(u, si, Visits(k, down));
    KnownKept(t, u, si, rel);
    KnownKept(u, SettleAll(u, si, Visits(k, down)), si, rel);
  }

  lemma HungCons(t: Table, si: nat, v: Visit, vs: seq<Visit>)
    requires Hung(t, si, v) && AllHung(Settle(t, si, v), si, vs)
    ensures AllHung(t, si, [v] + vs) && SettleAll(t, si, [v] + vs) == SettleAll(Settle(t, si, v), si, vs)
  {
    assert ([v] + vs)[1..] == vs;
  }

  lemma KnownKept(t: Table, u: Table, si: nat, path: Path)
    requires Valid(t) && Valid(u) && Keeps(t, u) && Known(t, si, path)
    ensures Known(u, si, path)
  {
    if path != [] {
      HandleKept(t, u, si, path);
    }
  }

  // ---- after a rescan ----------------------------------------------------------------------

  ghost predicate WellNamedAll(stores: seq<Kids>) {
    forall si :: 0 <= si < |stores| ==> WellNamed(stores[si])
  }

  /** Store `si` is in the table: its entries are live, in place, and no others of it are. */
  ghost predicate StoreShown(t: Table, si: nat, k: Kids) {
    && (forall i :: 0 <= i < |Visits(k, [])| ==> Settled(t, si, Visits(k, [])[i]))
    && (forall i :: 0 <= i < |t.objs| && t.objs[i].alive && t.objs[i].si == si ==> Met(t.objs[i], si, Visits(k, [])))
  }

  /** No entry of store `si` is live. */
  ghost predicate StoreHidden(t: Table, si: nat) {
    forall i :: 0 <= i < |t.objs| && t.objs[i].si == si ==> !t.objs[i].alive
  }

  lemma ScanList(t: Table, si: nat, vs: seq<Visit>)
    requires Valid(t) && StoreHidden(t, si) && Below(vs) && Distinct(vs) && AllHung(t, si, vs)
    ensures var u := SettleAll(t, si, vs);
      && (forall i :: 0 <= i < |vs| ==> Settled(u, si, vs[i]))
      && (forall i :: 0 <= i < |u.objs| && u.objs[i].alive && u.objs[i].si == si ==> Met(u.objs[i], si, vs))
  {
    var u := SettleAll(t, si, vs);
    forall i | 0 <= i < |vs| ensures Settled(u, si, vs[i]) {
      AllSettled(t, si, vs, i);
    }
    forall i | 0 <= i < |u.objs| && u.objs[i].alive && u.objs[i].si == si ensures Met(u.objs[i], si, vs) {
      OthersUnchanged(t, si, vs, i);
    }
  }

  lemma ScanShows(t: Table, si: nat, k: Kids)
    requires Valid(t) && WellNamed(k) && StoreHidden(t, si)
    ensures StoreShown(SettleAll(t, si, Visits(k, [])), si, k)
  {
    VisitsUnder(k, []);
    VisitsDistinct(k, []);
    VisitsHung(t, si, k, []);
    ScanList(t, si, Visits(k, []));
  }

  lemma SameOther(t: Table, si: nat, vs: seq<Visit>, sj: nat, path: Path)
    requires Valid(t) && sj != si && Below(vs) && ByPath(t.objs, sj, path) != -1
    ensures var u, k := SettleAll(t, si, vs), ByPath(t.objs, sj, path);
      ByPath(u.objs, sj, path) == k && u.objs[k] == t.objs[k]
  {
    SettleAllKeeps(t, si, vs);
    HandleKept(t, SettleAll(t, si, vs), sj, path);
    OthersUnchanged(t, si, vs, ByPath(t.objs, sj, path));
  }

  /** Scanning another store leaves a store as it is. */
  lemma OtherStore(t: Table, si: nat, vs: seq<Visit>, sj: nat, k: Kids)
    requires Valid(t) && sj != si && Below(vs)
    ensures StoreShown(t, sj, k) && AllKnown(t, sj, k) ==> StoreShown(SettleAll(t, si, vs), sj, k) && AllKnown(SettleAll(t, si, vs), sj, k)
    ensures StoreHidden(t, sj) ==> StoreHidden(SettleAll(t, si, vs), sj)
  {
    var u, ws := SettleAll(t, si, vs), Visits(k, []);
    SettleAllKeeps(t, si, vs);
    forall i | 0 <= i < |u.objs| && u.objs[i].si == sj ensures i < |t.objs| && u.objs[i] == t.objs[i] {
      OthersUnchanged(t, si, vs, i);
    }
    if StoreShown(t, sj, k) && AllKnown(t, sj, k) {
      forall i | 0 <= i < |ws| ensures Settled(u, sj, ws[i]) && Known(u, sj, Above(ws[i].path)) {
        assert Settled(t, sj, ws[i]) && Known(t, sj, Above(ws[i].path));
        SameOther(t, si, vs, sj, ws[i].path);
        if Above(ws[i].path) != [] {
          SameOther(t, si, vs, sj, Above(ws[i].path));
        }
      }
    }
  }

  ghost predicate AllKnown(t: Table, si: nat, k: Kids) {
    forall i :: 0 <= i < |Visits(k, [])| ==> Known(t, si, Above(Visits(k, [])[i].path))
  }
}
