/** The MTP object table as the source keeps it: an array that grows, updated in place by the
    directory scan, the rename and the upward walk. */
module MtpObjects {
  import opened MtpTable
  import opened MtpTree

  class ObjectTable {
    var objs: seq<Obj>
    var nextHandle: nat

    ghost function View(): Table
      reads this
    {
      Table(objs, nextHandle)
    }

    constructor ()
      ensures View() == Table([], 1) && MtpTable.Valid(View())
    {
      objs, nextHandle := [], 1;
    }

    method FindPath(si: nat, path: Path) returns (k: int)
      ensures k == ByPath(objs, si, path)
    {
      var i: nat := 0;
      while i < |objs|
        invariant i <= |objs|
        invariant forall j :: 0 <= j < i ==> !(objs[j].si == si && objs[j].path == path)
      {
        if objs[i].si == si && objs[i].path == path {
          return i;
        }
        i := i + 1;
      }
      k := -1;
    }

    method FindHandle(handle: nat) returns (k: int)
      ensures k == ByHandle(objs, handle)
    {
      var i: nat := 0;
      while i < |objs|
        invariant i <= |objs|
        invariant forall j :: 0 <= j < i ==> !(objs[j].alive && objs[j].handle == handle)
      {
        if objs[i].alive && objs[i].handle == handle {
          return i;
        }
        i := i + 1;
      }
      k := -1;
    }

    /** obj_upsert: the entry's handle. */
    method UpsertObj(si: nat, path: Path, parent: nat, isDir: bool) returns (handle: nat)
      requires MtpTable.Valid(View()) && path != []
      modifies this
      ensures View() == Upsert(old(View()), si, path, parent, isDir) && MtpTable.Valid(View())
      ensures handle == HandleAt(View(), si, path)
    {
      UpsertKeeps(View(), si, path, parent, isDir);
      var k := FindPath(si, path);
      if k < 0 {
        handle := nextHandle;
        objs := objs + [Obj(handle, parent, si, path, isDir, true)];
        nextHandle := nextHandle + 1;
        UpsertAt(old(View()), si, path, parent, isDir);
      } else {
        handle := objs[k].handle;
        objs := objs[k := objs[k].(parent := parent, isDir := isDir, alive := true)];
      }
    }

    /** scan_dir: the entries of one directory, each followed by what is below it. */
    method ScanDir(si: nat, kids: Kids, rel: Path, parent: nat)
      requires MtpTable.Valid(View()) && Known(View(), si, rel) && parent == HandleAt(View(), si, rel) && WellNamed(kids)
      modifies this
      ensures View() == SettleAll(old(View()), si, Visits(kids, rel)) && MtpTable.Valid(View())
      decreases kids
    {
      ghost var t := View();
      if kids.End? {
        return;
      }
      var down := rel + [kids.name];
      ghost var v := Visit(down, kids.folder);
      assert Above(down) == rel;
      var handle := UpsertObj(si, down, parent, kids.folder);
      ghost var u := View();
      assert u == Settle(t, si, v);
      SettleOne(t, si, v, v);
      if kids.folder {
        ScanDir(si, kids.inner, down, handle);
      }
      ghost var w := View();
      assert w == SettleAll(u, si, Visits(kids.inner, down));
      ScanStep(t, si, kids, rel);
      ScanDir(si, kids.rest, rel, parent);
    }

    method KillAll()
      modifies this`objs
      ensures objs == Killed(old(objs))
    {
      ghost var was := objs;
      var i: nat := 0;
      while i < |objs|
        invariant i <= |objs| == |was|
        invariant forall j :: 0 <= j < i ==> objs[j] == was[j].(alive := false)
        invariant forall j :: i <= j < |objs| ==> objs[j] == was[j]
      {
        objs := objs[i := objs[i].(alive := false)];
        i := i + 1;
      }
    }

    method ScanAll(stores: seq<Kids>)
      requires MtpTable.Valid(View()) && WellNamedAll(stores)
      modifies this
      ensures View() == ScanStores(old(View()), stores, 0)
    {
      ghost var all := ScanStores(View(), stores, 0);
      var si: nat := 0;
      while si < |stores|
        invariant si <= |stores| && MtpTable.Valid(View())
        invariant ScanStores(View(), stores, si) == all
      {
        ScanDir(si, stores[si], [], 0);
        si := si + 1;
      }
    }

    /** rescan */
    method RescanAll(stores: seq<Kids>)
      requires MtpTable.Valid(View()) && WellNamedAll(stores)
      modifies this
      ensures View() == Rescan(old(View()), stores)
      ensures MtpTable.Valid(View()) && LiveFirst(View()) && Linked(View()) && ShownUpTo(View(), stores, |stores|)
    {
      RescanShows(View(), stores);
      RescanLinks(View(), stores);
      KillAll();
      ScanAll(stores);
    }

    /** retag_paths */
    method RetagPaths(si: nat, old_: Path, neu: Path)
      modifies this`objs
      ensures View() == Retag(old(View()), si, old_, neu)
      ensures old(MtpTable.Valid(View())) && neu != [] ==> MtpTable.Valid(View())
    {
      if MtpTable.Valid(View()) && neu != [] {
        RetagValid(View(), si, old_, neu);
      }
      ghost var was := objs;
      var i: nat := 0;
      while i < |objs|
        invariant i <= |objs| == |was|
        invariant forall j :: 0 <= j < i ==> objs[j] == Retagged(was[j], si, old_, neu)
        invariant forall j :: i <= j < |objs| ==> objs[j] == was[j]
      {
        var o := objs[i];
        if o.si == si && old_ <= o.path {
          objs := objs[i := o.(path := neu + o.path[|old_|..])];
        }
        i := i + 1;
      }
      assert objs == Retag(old(View()), si, old_, neu).objs;
    }

    /** is_descendant: the walk ends because every parent's path is shorter. */
    method IsBelow(handle: nat, ancestor: nat) returns (below: bool)
      requires MtpTable.Valid(View()) && Linked(View())
      ensures below == IsDescendant(View(), handle, ancestor)
    {
      var k := FindHandle(handle);
      while k >= 0 && objs[k].parent != 0
        invariant -1 <= k < |objs| && (k >= 0 ==> objs[k].alive)
        invariant IsDescendant(View(), handle, ancestor) == (k >= 0 && Climbs(View(), k, ancestor))
        decreases if k >= 0 then |objs[k].path| else 0
      {
        if objs[k].parent == ancestor {
          return true;
        }
        ParentFound(View(), k);
        k := FindHandle(objs[k].parent);
      }
      below := false;
    }
  }

  /** After an entry and what is below it, the scan goes on with the entries after it. */
  lemma ScanStep(t: Table, si: nat, k: Kids, rel: Path)
    requires MtpTable.Valid(t) && Known(t, si, rel) && k.More? && WellNamed(k)
    ensures var u := Settle(t, si, Visit(rel + [k.name], k.folder));
      var w := SettleAll(u, si, Visits(k.inner, rel + [k.name]));
      && MtpTable.Valid(u) && MtpTable.Valid(w) && Known(w, si, rel) && HandleAt(w, si, rel) == HandleAt(t, si, rel)
      && Known(u, si, rel + [k.name])
      && SettleAll(t, si, Visits(k, rel)) == SettleAll(w, si, Visits(k.rest, rel))
  {
    var down := rel + [k.name];
    var v := Visit(down, k.folder);
    var u := Settle(t, si, v);
    var a, b := Visits(k.inner, down), Visits(k.rest, rel);
    assert Above(down) == rel;
    SettleOne(t, si, v, v);
    ScanKeepsKnown(t, u, si, k.inner, down, rel);
    VisitsUnder(k.inner, down);
    SettleAllKeeps(u, si, a);
    KeepsTrans(t, u, SettleAll(u, si, a));
    if rel != [] {
      HandleKept(t, SettleAll(u, si, a), si, rel);
    }
    VisitsHung(u, si, k.inner, down);
    VisitsHung(SettleAll(u, si, a), si, k.rest, rel);
    HungAppend(u, si, a, b);
    assert ([v] + (a + b))[1..] == a + b;
  }
}
