/**
  The namespace of the backend: a map of files and a map of directories by path, where each directory
  keeps a listing and a link count of its own.
 */
module Namespace {
  import opened Basics

  const ROOT := "/"
  const ENOENT := -2
  const EEXIST := -17
  const ENOTEMPTY := -39

  /** `rfind('/') + 1`: the length of the part up to the last slash. */
  function Cut(p: string): (n: nat)
    ensures n <= |p| && (n > 0 ==> p[n - 1] == '/') && forall i | n <= i < |p| :: p[i] != '/'
  {
    if p == "" then 0 else if p[|p| - 1] == '/' then |p| else Cut(p[..|p| - 1])
  }

  /** The directory part, with its slash, and the last component of a path. */
  function DirOf(p: string): string { p[..Cut(p)] }
  function NameOf(p: string): string { p[Cut(p)..] }

  predicate Absolute(p: string) { p != "" && p[0] == '/' }

  /** A path without a slash is taken to lie in the root. */
  function Canon(p: string): string { if Cut(p) == 0 then "/" + p else p }

  /** The key of the directory in which a file is listed. */
  function DirKey(p: string): string { if DirOf(p) == "" then ROOT else DirOf(p) }

  lemma CutIs(p: string, n: nat)
    requires n <= |p| && (n > 0 ==> p[n - 1] == '/') && forall i | n <= i < |p| :: p[i] != '/'
    ensures Cut(p) == n
  {
    assert Cut(p) > 0 ==> p[Cut(p) - 1] == '/';
  }

  lemma CanonParts(p: string)
    ensures DirOf(Canon(p)) == DirKey(p) && NameOf(Canon(p)) == NameOf(p) && Canon(p) != ""
  {
    if Cut(p) == 0 {
      assert forall i | 0 <= i < |p| :: ("/" + p)[i + 1] == p[i];
      CutIs("/" + p, 1);
      assert ("/" + p)[1..] == p;
    }
  }

  lemma PathParts(p: string)
    ensures DirOf(p) + NameOf(p) == p
  {
  }

  /** Directory and name determine the path. */
  lemma PartsInjective(p: string, q: string)
    requires DirOf(p) == DirOf(q) && NameOf(p) == NameOf(q)
    ensures p == q
  {
    PathParts(p);
    PathParts(q);
  }

  /** `nvml::dir`: listing and `st_nlink`. */
  datatype Dir = Dir(files: set<string>, nlink: int) {
    function Add(name: string): Dir { Dir(files + {name}, nlink + 1) }
    function Remove(name: string): Dir { Dir(files - {name}, nlink - 1) }
  }

  /** Directories are keyed by their path with a slash at the end. */
  function PathOf(d: string): string requires d != "" { d[..|d| - 1] }

  /** The paths of the directories other than the root. */
  ghost function DirPaths(dirs: map<string, Dir>): set<string>
    requires "" !in dirs
  {
    set d | d in dirs && d != ROOT :: PathOf(d)
  }

  /** Everything that must be listed somewhere. */
  ghost function Items(files: set<string>, dirs: map<string, Dir>): set<string>
    requires "" !in dirs
  {
    files + DirPaths(dirs)
  }

  /** The last components of everything that lies in directory `d`. */
  ghost function Listing(items: set<string>, d: string): set<string> {
    set p | p in items && DirOf(p) == d :: NameOf(p)
  }

  lemma ListingAdd(items: set<string>, p: string, d: string)
    ensures Listing(items + {p}, d) == Listing(items, d) + if DirOf(p) == d then {NameOf(p)} else {}
    ensures p !in items ==> NameOf(p) !in Listing(items, DirOf(p))
  {
    if NameOf(p) in Listing(items, DirOf(p)) {
      var q :| q in items && DirOf(q) == DirOf(p) && NameOf(q) == NameOf(p);
      PartsInjective(p, q);
    }
  }

  lemma ListingRemove(items: set<string>, p: string, d: string)
    requires p in items
    ensures Listing(items - {p}, d) == Listing(items, d) - if DirOf(p) == d then {NameOf(p)} else {}
    ensures NameOf(p) in Listing(items, DirOf(p))
  {
    var rest := items - {p};
    assert items == rest + {p};
    ListingAdd(rest, p, d);
    ListingAdd(rest, p, DirOf(p));
  }

  ghost predicate DirOk(items: set<string>, d: string, dir: Dir) {
    dir.files == Listing(items, d) && dir.nlink == 1 + |dir.files|
  }

  ghost predicate DirsOk(items: set<string>, dirs: map<string, Dir>) {
    forall d | d in dirs :: DirOk(items, d, dirs[d])
  }

  /** `add_file` in the directory of a new item. */
  lemma AddItem(items: set<string>, dirs: map<string, Dir>, p: string)
    requires DirsOk(items, dirs) && DirOf(p) in dirs && p !in items
    ensures DirsOk(items + {p}, dirs[DirOf(p) := dirs[DirOf(p)].Add(NameOf(p))])
  {
    forall d | d in dirs ensures DirOk(items + {p}, d, dirs[DirOf(p) := dirs[DirOf(p)].Add(NameOf(p))][d]) {
      ListingAdd(items, p, d);
      assert DirOk(items, d, dirs[d]);
    }
  }

  /** `remove_file` in the directory of an item. */
  lemma RemoveItem(items: set<string>, dirs: map<string, Dir>, p: string)
    requires DirsOk(items, dirs) && DirOf(p) in dirs && p in items
    ensures DirsOk(items - {p}, dirs[DirOf(p) := dirs[DirOf(p)].Remove(NameOf(p))])
  {
    forall d | d in dirs ensures DirOk(items - {p}, d, dirs[DirOf(p) := dirs[DirOf(p)].Remove(NameOf(p))][d]) {
      ListingRemove(items, p, d);
      assert DirOk(items, d, dirs[d]);
    }
  }

  /** Adding an item twice counts a link that the listing does not have. */
  lemma AddTwice(items: set<string>, dirs: map<string, Dir>, p: string)
    requires DirsOk(items, dirs) && DirOf(p) in dirs && p in items
    ensures !DirsOk(items + {p}, dirs[DirOf(p) := dirs[DirOf(p)].Add(NameOf(p))])
  {
    var d := DirOf(p);
    ListingAdd(items, p, d);
    assert items + {p} == items && DirOk(items, d, dirs[d]) && NameOf(p) in Listing(items, d);
    assert dirs[d].files + {NameOf(p)} == dirs[d].files;
    assert !DirOk(items + {p}, d, dirs[d := dirs[d].Add(NameOf(p))][d]);
  }

  ghost predicate KeysOk(dirs: map<string, Dir>) {
    && ROOT in dirs && "" !in dirs
    && (forall d | d in dirs && d != ROOT :: d[|d| - 1] == '/' && Absolute(PathOf(d)) && DirOf(PathOf(d)) in dirs)
  }

  ghost predicate FilesOk(files: set<string>, dirs: map<string, Dir>) {
    forall f | f in files :: DirOf(f) in dirs
  }

  /** No file has the path of a directory. */
  ghost predicate Apart(files: set<string>, dirs: map<string, Dir>)
    requires "" !in dirs
  {
    forall d | d in dirs && d != ROOT :: PathOf(d) !in files
  }

  lemma DirPathItem(files: set<string>, dirs: map<string, Dir>, p: string)
    requires KeysOk(dirs) && p != ""
    ensures p in Items(files, dirs) <==> p in files || p + "/" in dirs
  {
    hide Absolute, DirOf;
    DirPathKey(dirs, p);
  }

  lemma DirPathKey(dirs: map<string, Dir>, p: string)
    requires "" !in dirs && p != ""
    requires forall d | d in dirs && d != ROOT :: d[|d| - 1] == '/'
    ensures p in DirPaths(dirs) <==> p + "/" in dirs
  {
    if p + "/" in dirs { assert PathOf(p + "/") == p; }
    if p in DirPaths(dirs) {
      var d :| d in dirs && d != ROOT && PathOf(d) == p;
      assert d == p + "/";
    }
  }

  /** Every directory lists exactly what lies in it and counts one link more. */
  ghost predicate Exact(files: set<string>, dirs: map<string, Dir>)
    requires "" !in dirs
  {
    DirsOk(Items(files, dirs), dirs)
  }

  ghost predicate Good(files: set<string>, dirs: map<string, Dir>) {
    KeysOk(dirs) && FilesOk(files, dirs) && Apart(files, dirs) && Exact(files, dirs)
  }

  function Listed(dirs: map<string, Dir>, p: string): map<string, Dir>
    requires DirOf(p) in dirs
  {
    dirs[DirOf(p) := dirs[DirOf(p)].Add(NameOf(p))]
  }

  function Delisted(dirs: map<string, Dir>, p: string): map<string, Dir>
    requires DirOf(p) in dirs
  {
    dirs[DirOf(p) := dirs[DirOf(p)].Remove(NameOf(p))]
  }

  /** The path of a directory other than the root has its parent, and is no file. */
  lemma DirPath(files: set<string>, dirs: map<string, Dir>, p: string)
    requires Good(files, dirs) && p != "" && p + "/" in dirs
    ensures Absolute(p) && DirOf(p) in dirs && p !in files && p in Items(files, dirs)
  {
    hide DirsOk;
    assert PathOf(p + "/") == p;
  }

  lemma KeysSame(dirs: map<string, Dir>, dirs': map<string, Dir>)
    requires KeysOk(dirs) && dirs'.Keys == dirs.Keys
    ensures KeysOk(dirs')
  {
    forall d | d in dirs' && d != ROOT
      ensures d[|d| - 1] == '/' && Absolute(PathOf(d)) && DirOf(PathOf(d)) in dirs'
    {
      assert d in dirs && DirOf(PathOf(d)) in dirs.Keys;
    }
  }

  lemma ItemsSame(files: set<string>, dirs: map<string, Dir>, dirs': map<string, Dir>)
    requires "" !in dirs && dirs'.Keys == dirs.Keys
    ensures Items(files, dirs') == Items(files, dirs)
  {
    forall d ensures d in dirs <==> d in dirs' { assert d in dirs.Keys <==> d in dirs'.Keys; }
  }

  /** A new file goes into its directory's listing; that stays exact if and only if nothing has its path. */
  lemma FileAdded(files: set<string>, dirs: map<string, Dir>, p: string)
    requires Good(files, dirs) && p != "" && DirOf(p) in dirs
    ensures KeysOk(Listed(dirs, p))
    ensures Exact(files + {p}, Listed(dirs, p)) <==> p !in files && p + "/" !in dirs
    ensures Good(files + {p}, Listed(dirs, p)) <==> p !in files && p + "/" !in dirs
  {
    var items, dirs' := Items(files, dirs), Listed(dirs, p);
    KeysSame(dirs, dirs');
    ItemsSame(files + {p}, dirs, dirs');
    assert Items(files + {p}, dirs) == items + {p};
    DirPathItem(files, dirs, p);
    FileAddedLists(items, dirs, p);
    if p + "/" !in dirs { FileAddedApart(files, dirs, p); }
  }

  lemma FileAddedLists(items: set<string>, dirs: map<string, Dir>, p: string)
    requires DirsOk(items, dirs) && DirOf(p) in dirs
    ensures DirsOk(items + {p}, Listed(dirs, p)) <==> p !in items
  {
    hide DirsOk;
    if p in items { AddTwice(items, dirs, p); } else { AddItem(items, dirs, p); }
  }

  lemma FileAddedApart(files: set<string>, dirs: map<string, Dir>, p: string)
    requires Good(files, dirs) && DirOf(p) in dirs && p + "/" !in dirs
    ensures FilesOk(files + {p}, Listed(dirs, p)) && Apart(files + {p}, Listed(dirs, p))
  {
    hide DirsOk, Items, Absolute, DirOf;
    var dirs' := Listed(dirs, p);
    assert dirs'.Keys == dirs.Keys;
    forall d | d in dirs' && d != ROOT ensures PathOf(d) !in files + {p} {
      assert d in dirs;
      assert d == PathOf(d) + "/";
    }
  }

  lemma FileRemoved(files: set<string>, dirs: map<string, Dir>, p: string)
    requires Good(files, dirs) && p in files
    ensures DirOf(p) in dirs && Good(files - {p}, Delisted(dirs, p))
  {
    var items := Items(files, dirs);
    var dirs' := Delisted(dirs, p);
    KeysSame(dirs, dirs');
    ItemsSame(files - {p}, dirs, dirs');
    FileRemovedItems(files, dirs, p);
    FileRemovedApart(files, dirs, p);
    hide DirsOk;
    RemoveItem(items, dirs, p);
  }

  lemma FileRemovedItems(files: set<string>, dirs: map<string, Dir>, p: string)
    requires KeysOk(dirs) && Apart(files, dirs) && p in files
    ensures Items(files - {p}, dirs) == Items(files, dirs) - {p}
  {
  }

  lemma FileRemovedApart(files: set<string>, dirs: map<string, Dir>, p: string)
    requires KeysOk(dirs) && FilesOk(files, dirs) && Apart(files, dirs) && DirOf(p) in dirs
    ensures FilesOk(files - {p}, Delisted(dirs, p)) && Apart(files - {p}, Delisted(dirs, p))
  {
    hide Absolute, DirOf;
    var dirs' := Delisted(dirs, p);
    assert dirs'.Keys == dirs.Keys;
    forall d | d in dirs' && d != ROOT ensures PathOf(d) !in files { assert d in dirs; }
  }

  /** A file whose directory is missing is in no listing. */
  lemma Orphan(files: set<string>, dirs: map<string, Dir>, p: string)
    requires Good(files, dirs) && DirOf(p) !in dirs
    ensures Exact(files + {p}, dirs) && !Good(files + {p}, dirs)
  {
    var items := Items(files, dirs);
    assert Items(files + {p}, dirs) == items + {p};
    assert p in files + {p};
    forall d | d in dirs ensures DirOk(items + {p}, d, dirs[d]) {
      ListingAdd(items, p, d);
      assert DirOk(items, d, dirs[d]);
    }
  }

  /** The map with a new empty directory, and with its name in the parent. */
  function Grown(dirs: map<string, Dir>, p: string): map<string, Dir> { dirs[p + "/" := Dir({}, 1)] }

  lemma GrownKeys(dirs: map<string, Dir>, p: string)
    requires KeysOk(dirs) && DirOf(p) in dirs
    ensures KeysOk(Grown(dirs, p))
  {
    var dirs' := Grown(dirs, p);
    var e := DirOf(p);
    assert p != "" && p[0] == '/' by {
      assert e != "" && e == p[..|e|] && p[0] == e[0];
      if e != ROOT { assert Absolute(PathOf(e)); }
    }
    assert PathOf(p + "/") == p;
    forall d | d in dirs' && d != ROOT
      ensures d[|d| - 1] == '/' && Absolute(PathOf(d)) && DirOf(PathOf(d)) in dirs'
    {
    }
  }

  /** Nothing lies in a directory that is not there. */
  lemma NothingBelow(files: set<string>, dirs: map<string, Dir>, d: string)
    requires KeysOk(dirs) && FilesOk(files, dirs) && d !in dirs
    ensures Listing(Items(files, dirs), d) == {}
  {
  }

  lemma GrownItems(files: set<string>, dirs: map<string, Dir>, p: string)
    requires KeysOk(dirs) && p != "" && "" !in Grown(dirs, p)
    ensures Items(files, Grown(dirs, p)) == Items(files, dirs) + {p}
  {
    var dirs' := Grown(dirs, p);
    assert PathOf(p + "/") == p && p + "/" != ROOT && p + "/" in dirs';
    forall x | x in Items(files, dirs) ensures x in Items(files, dirs') {
      if x !in files {
        var d :| d in dirs && d != ROOT && PathOf(d) == x;
        assert d in dirs';
      }
    }
  }

  /** `do_mkdir`: exact again once the parent lists the name, if and only if no file has the path. */
  lemma DirAdded(files: set<string>, dirs: map<string, Dir>, p: string)
    requires Good(files, dirs) && p + "/" !in dirs && DirOf(p) in dirs
    ensures KeysOk(Listed(Grown(dirs, p), p))
    ensures Exact(files, Listed(Grown(dirs, p), p)) <==> p !in files
    ensures Good(files, Listed(Grown(dirs, p), p)) <==> p !in files
  {
    var items, grown := Items(files, dirs), Grown(dirs, p);
    var dirs' := Listed(grown, p);
    GrownKeys(dirs, p);
    KeysSame(grown, dirs');
    assert p != "";
    GrownItems(files, dirs, p);
    ItemsSame(files, grown, dirs');
    NothingBelow(files, dirs, p + "/");
    assert Absolute(p) by { assert PathOf(p + "/") == p; }
    DirPathItem(files, dirs, p);
    assert DirsOk(items, grown);
    FileAddedLists(items, grown, p);
    DirAddedApart(files, dirs, p);
  }

  lemma DirAddedApart(files: set<string>, dirs: map<string, Dir>, p: string)
    requires Good(files, dirs) && DirOf(p) in dirs && p != ""
    ensures FilesOk(files, Listed(Grown(dirs, p), p))
    ensures Apart(files, Listed(Grown(dirs, p), p)) <==> p !in files
  {
    hide DirsOk, Items, Absolute, DirOf;
    var dirs' := Listed(Grown(dirs, p), p);
    assert PathOf(p + "/") == p;
    assert p + "/" != ROOT && p + "/" in dirs';
    assert forall d | d in dirs' :: d in dirs || d == p + "/";
    assert forall d | d in dirs :: d in dirs';
  }

  /** `do_rmdir` of a directory in which nothing lies. */
  lemma DirRemoved(files: set<string>, dirs: map<string, Dir>, p: string)
    requires Good(files, dirs) && p != "" && p + "/" in dirs && dirs[p + "/"].files == {}
    ensures DirOf(p) in dirs - {p + "/"} && Good(files, Delisted(dirs - {p + "/"}, p))
  {
    var items, key := Items(files, dirs), p + "/";
    var less := dirs - {key};
    DirPath(files, dirs, p);
    assert |DirOf(p)| < |key|;
    assert DirOk(items, key, dirs[key]);
    ShrunkKeys(files, dirs, p);
    var dirs' := Delisted(less, p);
    KeysSame(less, dirs');
    ShrunkItems(files, dirs, p);
    ItemsSame(files, less, dirs');
    assert DirsOk(items, less);
    hide DirsOk, Items, KeysOk, DirOf;
    RemoveItem(items, less, p);
    FilesSame(files, less, dirs');
  }

  lemma FilesSame(files: set<string>, dirs: map<string, Dir>, dirs': map<string, Dir>)
    requires "" !in dirs && FilesOk(files, dirs) && Apart(files, dirs) && dirs'.Keys == dirs.Keys
    ensures FilesOk(files, dirs') && Apart(files, dirs')
  {
    forall d ensures d in dirs <==> d in dirs' { assert d in dirs.Keys <==> d in dirs'.Keys; }
  }

  lemma ShrunkKeys(files: set<string>, dirs: map<string, Dir>, p: string)
    requires KeysOk(dirs) && FilesOk(files, dirs) && Apart(files, dirs) && p != "" && p + "/" in dirs
    requires Listing(Items(files, dirs), p + "/") == {}
    ensures KeysOk(dirs - {p + "/"}) && FilesOk(files, dirs - {p + "/"}) && Apart(files, dirs - {p + "/"})
  {
    var items, key := Items(files, dirs), p + "/";
    var less := dirs - {key};
    forall q | q in items ensures DirOf(q) != key {
      assert DirOf(q) == key ==> NameOf(q) in Listing(items, key);
    }
    forall d | d in less && d != ROOT
      ensures d[|d| - 1] == '/' && Absolute(PathOf(d)) && DirOf(PathOf(d)) in less
    {
      assert PathOf(d) in items;
    }
  }

  lemma ShrunkItems(files: set<string>, dirs: map<string, Dir>, p: string)
    requires KeysOk(dirs) && Apart(files, dirs) && p != "" && p + "/" in dirs
    ensures Items(files, dirs - {p + "/"}) == Items(files, dirs) - {p}
  {
    hide Absolute, DirOf;
    var less := dirs - {p + "/"};
    assert PathOf(p + "/") == p;
    assert p !in files;
    ShrunkPaths(dirs, p);
  }

  lemma ShrunkPaths(dirs: map<string, Dir>, p: string)
    requires "" !in dirs && p + "/" in dirs && p != ""
    requires forall d | d in dirs && d != ROOT :: d[|d| - 1] == '/'
    ensures DirPaths(dirs - {p + "/"}) == DirPaths(dirs) - {p}
  {
    var less := dirs - {p + "/"};
    forall x ensures x in DirPaths(less) <==> x in DirPaths(dirs) && x != p {
      if x in DirPaths(dirs) && x != p {
        var d :| d in dirs && d != ROOT && PathOf(d) == x;
        assert d != p + "/" && d in less;
      }
      if x in DirPaths(less) {
        var d :| d in less && d != ROOT && PathOf(d) == x;
        assert d == x + "/" && d in dirs;
      }
    }
  }

  /** The last part of `do_rename`, when the new path is not taken by its own file any more. */
  lemma Renamed(files: set<string>, dirs: map<string, Dir>, o: string, n: string)
    requires Good(files, dirs) && o in files && n != ""
    ensures DirOf(o) in dirs
    ensures var less := Delisted(dirs, o); var clash := n in files - {o} || n + "/" in dirs;
            var dirs' := if DirOf(n) in less then Listed(less, n) else less;
            && KeysOk(dirs')
            && (Exact(files - {o} + {n}, dirs') <==> !clash)
            && (Good(files - {o} + {n}, dirs') <==> !clash && DirOf(n) in dirs)
  {
    FileRemoved(files, dirs, o);
    hide DirsOk, Items, Apart, Absolute, DirOf;
    var fewer, less := files - {o}, Delisted(dirs, o);
    assert less.Keys == dirs.Keys;
    assert n + "/" in dirs <==> n + "/" in less;
    if n + "/" in less { DirPath(fewer, less, n); }
    if DirOf(n) in less { FileAdded(fewer, less, n); } else { Orphan(fewer, less, n); }
  }

  /** The listings name the old path of a directory whose key has been moved, and nothing has that path. Only the
      root is listed nowhere; what lies in it is, after the move, in no listed place. */
  lemma DirMoved(files: set<string>, dirs: map<string, Dir>, o: string, n: string)
    requires Good(files, dirs) && o in dirs && n !in dirs && (|n| > 1 ==> n[|n| - 1] == '/')
    ensures var dirs' := dirs[n := dirs[o]] - {o};
      ("" !in dirs' && Exact(files, dirs')) <==> (o == ROOT && n != "" && dirs[ROOT].files == {})
    ensures !Good(files, dirs[n := dirs[o]] - {o})
  {
    var dirs' := dirs[n := dirs[o]] - {o};
    hide DirsOk, Items, Exact, FilesOk, Apart, DirOf, NameOf, Absolute;
    assert ROOT in dirs && "" !in dirs;
    if n == "" {
      assert "" in dirs';
    } else if o != ROOT {
      ParentOf(files, dirs, o);
      var p := PathOf(o);
      OldNameListed(files, dirs, p);
      NoLongerThere(files, dirs, o, n);
      MovedInexact(files, dirs', p);
    } else {
      assert ROOT !in dirs';
      RootMoved(files, dirs, n);
    }
  }

  /** Nothing lies below the new key of a moved directory. */
  lemma NothingMoved(files: set<string>, dirs: map<string, Dir>, n: string)
    requires KeysOk(dirs) && FilesOk(files, dirs) && n !in dirs && n != ""
    ensures Listing(Items(files, dirs[n := dirs[ROOT]] - {ROOT}), n) == {}
  {
    var dirs' := dirs[n := dirs[ROOT]] - {ROOT};
    forall p | p in Items(files, dirs') ensures DirOf(p) != n {
      if p !in files {
        var d :| d in dirs' && d != ROOT && PathOf(d) == p;
        assert d == n ==> |DirOf(p)| < |n|;
      }
    }
  }

  /** Some directory lies in the root, if there is any other one. */
  lemma {:induction false} BelowRoot(dirs: map<string, Dir>, d: string) returns (e: string)
    requires KeysOk(dirs) && d in dirs && d != ROOT
    ensures e in dirs && e != ROOT && DirOf(PathOf(e)) == ROOT
    decreases |d|
  {
    var up := DirOf(PathOf(d));
    assert |up| < |d|;
    if up == ROOT { e := d; } else { e := BelowRoot(dirs, up); }
  }

  lemma EmptyRoot(files: set<string>, dirs: map<string, Dir>)
    requires Good(files, dirs) && dirs[ROOT].files == {}
    ensures files == {} && dirs.Keys == {ROOT}
  {
    hide DirsOk;
    forall p | p in Items(files, dirs) ensures DirOf(p) != ROOT {
      if DirOf(p) == ROOT { OldNameListed(files, dirs, p); }
    }
    assert forall e | e in dirs && e != ROOT :: PathOf(e) in Items(files, dirs);
    assert forall f | f in files :: f in Items(files, dirs);
    forall d | d in dirs ensures d == ROOT {
      if d != ROOT { var e := BelowRoot(dirs, d); }
    }
    assert forall f | f in files :: DirOf(f) in dirs;
  }

  lemma RootMoved(files: set<string>, dirs: map<string, Dir>, n: string)
    requires Good(files, dirs) && n !in dirs && n != ""
    ensures var dirs' := dirs[n := dirs[ROOT]] - {ROOT};
      "" !in dirs' && (Exact(files, dirs') <==> dirs[ROOT].files == {})
  {
    var dirs' := dirs[n := dirs[ROOT]] - {ROOT};
    NothingMoved(files, dirs, n);
    var items := Items(files, dirs');
    assert DirOk(items, n, dirs'[n]) ==> dirs[ROOT].files == {};
    if dirs[ROOT].files == {} {
      EmptyRoot(files, dirs);
      assert DirOk(Items(files, dirs), ROOT, dirs[ROOT]);
      assert forall d | d in dirs' :: d == n;
    }
  }

  lemma ParentOf(files: set<string>, dirs: map<string, Dir>, o: string)
    requires Good(files, dirs) && o in dirs && o != ROOT
    ensures o != "" && PathOf(o) in Items(files, dirs) && DirOf(PathOf(o)) in dirs && DirOf(PathOf(o)) != o
  {
    hide DirsOk;
    assert |DirOf(PathOf(o))| < |o|;
  }

  lemma OldNameListed(files: set<string>, dirs: map<string, Dir>, p: string)
    requires Good(files, dirs) && p in Items(files, dirs) && DirOf(p) in dirs
    ensures NameOf(p) in dirs[DirOf(p)].files
  {
    var items := Items(files, dirs);
    assert DirOk(items, DirOf(p), dirs[DirOf(p)]);
    ListingRemove(items, p, DirOf(p));
  }

  lemma NoLongerThere(files: set<string>, dirs: map<string, Dir>, o: string, n: string)
    requires Good(files, dirs) && o in dirs && o != ROOT && n !in dirs && n != "" && (|n| > 1 ==> n[|n| - 1] == '/')
    ensures "" !in dirs[n := dirs[o]] - {o} && PathOf(o) !in Items(files, dirs[n := dirs[o]] - {o})
  {
    hide DirsOk, DirOf;
    var dirs', p := dirs[n := dirs[o]] - {o}, PathOf(o);
    assert o == p + "/" && p !in files;
    forall d | d in dirs' && d != ROOT ensures PathOf(d) != p {
      assert |d| > 1 ==> d == PathOf(d) + "/";
    }
  }

  lemma MovedInexact(files: set<string>, dirs': map<string, Dir>, p: string)
    requires "" !in dirs' && p !in Items(files, dirs')
    requires DirOf(p) in dirs' && NameOf(p) in dirs'[DirOf(p)].files
    ensures !Exact(files, dirs')
  {
    var items, d := Items(files, dirs'), DirOf(p);
    ListingAdd(items, p, d);
    assert !DirOk(items, d, dirs'[d]);
  }

  // ---------------------------------------------------------------------------------------------
  // Paths as they are handed over

  ghost function Canons(files: set<string>): set<string> { set f | f in files :: Canon(f) }

  /** No two files differ only in the slash at the front. */
  ghost predicate Unlike(files: set<string>) {
    forall f, g | f in files && g in files && Canon(f) == Canon(g) :: f == g
  }

  lemma CanonsAdd(files: set<string>, p: string)
    ensures Canons(files + {p}) == Canons(files) + {Canon(p)}
    ensures p !in files ==> (Unlike(files + {p}) <==> Unlike(files) && Canon(p) !in Canons(files))
  {
    hide Canon;
    var more := files + {p};
    assert forall f | f in files :: f in more;
    assert p in more;
  }

  lemma CanonsRemove(files: set<string>, p: string)
    requires Unlike(files) && p in files
    ensures Canons(files - {p}) == Canons(files) - {Canon(p)} && Canon(p) in Canons(files) && Unlike(files - {p})
  {
    hide Canon;
  }

  /** The key of a directory: a slash at the end if there is none. */
  function KeyOf(path: string): (key: string)
    ensures path <= key && |key| <= |path| + 1 && key != "" && key[|key| - 1] == '/'
    ensures path != "" && path[|path| - 1] == '/' ==> key == path
  {
    if path == "" || path[|path| - 1] != '/' then path + "/" else path
  }

  lemma KeyPath(path: string)
    ensures KeyOf(path) != "" && PathOf(KeyOf(path)) + "/" == KeyOf(path)
  {
  }

  /** The first part of `do_rename` of a file: an old file at the new path goes away. */
  lemma TargetGone(files: set<string>, dirs: map<string, Dir>, n: string)
    requires Good(Canons(files), dirs) && Unlike(files) && n in files
    ensures DirOf(Canon(n)) in dirs && Good(Canons(files - {n}), Delisted(dirs, Canon(n))) && Unlike(files - {n})
    ensures Delisted(dirs, Canon(n)).Keys == dirs.Keys
  {
    hide Good, DirOf;
    CanonsRemove(files, n);
    FileRemoved(Canons(files), dirs, Canon(n));
  }

  /** The second part. */
  lemma FileMoved(files: set<string>, dirs: map<string, Dir>, o: string, n: string)
    requires Good(Canons(files), dirs) && Unlike(files) && o in files && n !in files
    ensures DirOf(Canon(o)) in dirs
    ensures var less := Delisted(dirs, Canon(o));
            var clash := Canon(n) in Canons(files - {o}) || Canon(n) + "/" in dirs;
            var dirs' := if DirOf(Canon(n)) in less then Listed(less, Canon(n)) else less;
            && "" !in dirs' && dirs'.Keys == dirs.Keys
            && (Exact(Canons(files - {o} + {n}), dirs') <==> !clash)
            && (Good(Canons(files - {o} + {n}), dirs') && Unlike(files - {o} + {n}) <==>
                  !clash && DirOf(Canon(n)) in dirs)
  {
    CanonParts(n);
    hide Good, DirOf, NameOf, Canon, Canons, Unlike, Exact, KeysOk;
    CanonsRemove(files, o);
    CanonsAdd(files - {o}, n);
    Renamed(Canons(files), dirs, Canon(o), Canon(n));
    var less := Delisted(dirs, Canon(o));
    KeysNoEmpty(if DirOf(Canon(n)) in less then Listed(less, Canon(n)) else less);
  }

  class Backend {
    var files: set<string>
    var dirs: map<string, Dir>

    /** Every directory lists exactly what lies in it and counts one link more. */
    ghost predicate Listings()
      reads this
    {
      "" !in dirs && Exact(Canons(files), dirs)
    }

    ghost predicate Valid()
      reads this
    {
      Good(Canons(files), dirs) && Unlike(files)
    }

    /** Something other than the file `path` itself has the path already. */
    ghost predicate Taken(path: string)
      reads this
    {
      Canon(path) in Canons(files - {path}) || Canon(path) + "/" in dirs
    }

    constructor ()
      ensures Valid() && files == {} && dirs == map[ROOT := Dir({}, 1)]
    {
      files, dirs := {}, map[ROOT := Dir({}, 1)];
      assert Items({}, map[ROOT := Dir({}, 1)]) == {};
    }

    /** `do_create`: the listings stay exact if and only if nothing has the path. */
    method Create(path: string) returns (rc: int)
      requires Valid()
      modifies this
      ensures rc == if path in old(files) || DirKey(path) !in old(dirs) then -1 else 0
      ensures rc != 0 ==> files == old(files) && dirs == old(dirs)
      ensures DirKey(path) == DirOf(Canon(path))
      ensures rc == 0 ==> files == old(files) + {path} && dirs == Listed(old(dirs), Canon(path))
      ensures Listings() <==> (rc == 0 ==> !old(Taken(path)))
      ensures Valid() <==> (rc == 0 ==> !old(Taken(path)))
    {
      CanonParts(path);
      if path in files {
        return -1;
      }
      var dir := DirKey(path);
      if dir !in dirs {
        return -1;
      }
      assert files - {path} == files;
      FileAdded(Canons(files), dirs, Canon(path));
      CanonsAdd(files, path);
      hide Good, Exact, Unlike, Canons, KeysOk;
      KeysNoEmpty(Listed(dirs, Canon(path)));
      dirs := dirs[dir := dirs[dir].Add(NameOf(path))];
      files := files + {path};
      return 0;
    }

    /** `do_unlink`. */
    method Unlink(path: string) returns (rc: int)
      requires Valid()
      modifies this
      ensures Valid()
      ensures rc == if path in old(files) then 0 else ENOENT
      ensures files == old(files) - {path}
      ensures DirKey(path) == DirOf(Canon(path)) && (rc == 0 ==> DirKey(path) in old(dirs))
      ensures dirs == if rc == 0 then Delisted(old(dirs), Canon(path)) else old(dirs)
    {
      CanonParts(path);
      if path !in files {
        return ENOENT;
      }
      CanonsRemove(files, path);
      FileRemoved(Canons(files), dirs, Canon(path));
      hide Good, Unlike, Canons;
      files := files - {path};
      var dir := DirKey(path);
      if dir in dirs {
        dirs := dirs[dir := dirs[dir].Remove(NameOf(path))];
      }
      return 0;
    }

    /** `do_mkdir`: the listings stay exact if and only if no file has the path. */
    method MkDir(path: string) returns (rc: int)
      requires Valid()
      requires KeyOf(path) !in dirs ==> DirOf(PathOf(KeyOf(path))) in dirs
      modifies this
      ensures rc == if KeyOf(path) in old(dirs) then -1 else 0
      ensures files == old(files)
      ensures rc != 0 ==> dirs == old(dirs)
      ensures rc == 0 ==> dirs.Keys == old(dirs).Keys + {KeyOf(path)} && dirs[KeyOf(path)] == Dir({}, 1)
      ensures rc == 0 ==> dirs == Listed(Grown(old(dirs), PathOf(KeyOf(path))), PathOf(KeyOf(path)))
      ensures Listings() <==> (rc == 0 ==> PathOf(KeyOf(path)) !in Canons(files))
      ensures Valid() <==> (rc == 0 ==> PathOf(KeyOf(path)) !in Canons(files))
    {
      var key := KeyOf(path);
      if key in dirs {
        return -1;
      }
      KeyPath(path);
      DirAdded(Canons(files), dirs, PathOf(key));
      hide Good, KeysOk, DirsOk, Items, Exact, FilesOk, Apart, Unlike, Canons;
      KeysNoEmpty(Listed(Grown(dirs, PathOf(key)), PathOf(key)));
      dirs := dirs[key := Dir({}, 1)];
      var p := key[..|key| - 1];
      assert |DirOf(p)| < |key|;
      dirs := dirs[DirOf(p) := dirs[DirOf(p)].Add(NameOf(p))];
      return 0;
    }

    /** `do_rmdir`: it succeeds if and only if the directory is there and nothing lies in it. */
    method RmDir(path: string) returns (rc: int)
      requires Valid() && (KeyOf(path) == ROOT ==> dirs[ROOT].nlink != 1)
      modifies this
      ensures Valid() && files == old(files)
      ensures rc == 0 <==> KeyOf(path) in old(dirs) && Listing(old(Items(Canons(files), dirs)), KeyOf(path)) == {}
      ensures rc == ENOENT <==> KeyOf(path) !in old(dirs)
      ensures rc in {0, ENOENT, ENOTEMPTY}
      ensures rc != 0 ==> dirs == old(dirs)
      ensures rc == 0 ==> dirs.Keys == old(dirs).Keys - {KeyOf(path)}
    {
      var key := KeyOf(path);
      if key !in dirs {
        return ENOENT;
      }
      assert DirOk(Items(Canons(files), dirs), key, dirs[key]);
      if dirs[key].nlink != 1 {
        return ENOTEMPTY;
      }
      KeyPath(path);
      DirRemoved(Canons(files), dirs, PathOf(key));
      hide Good, KeysOk, DirsOk, Items, Exact, FilesOk, Apart, Unlike, Canons;
      dirs := dirs - {key};
      var p := key[..|key| - 1];
      dirs := dirs[DirOf(p) := dirs[DirOf(p)].Remove(NameOf(p))];
      return 0;
    }

    /** `do_renamedir`: only the key moves. The listings stay exact if and only if it fails, or moves an empty root. */
    method RenameDir(o: string, n: string) returns (rc: int)
      requires Valid() && (|n| > 1 ==> n[|n| - 1] == '/')
      modifies this`dirs
      ensures rc == if n in old(dirs) then EEXIST else if o !in old(dirs) then ENOENT else 0
      ensures dirs == if rc == 0 then old(dirs)[n := old(dirs)[o]] - {o} else old(dirs)
      ensures Valid() <==> rc != 0
      ensures Listings() <==> rc != 0 || (o == ROOT && n != "" && old(dirs)[ROOT].files == {})
    {
      if n in dirs {
        return EEXIST;
      }
      if o !in dirs {
        return ENOENT;
      }
      DirMoved(Canons(files), dirs, o, n);
      hide Good, Exact, Canons, Unlike;
      dirs := dirs[n := dirs[o]];
      dirs := dirs - {o};
      return 0;
    }

    /** `do_rename`, of a file, from where the paths are found to be no directory. Without a result it has used an
        entry that it erased itself. */
    method RenameFile(opath: string, npath: string) returns (rc: Option<int>)
      requires Valid()
      modifies this
      ensures rc == if opath !in old(files) then Some(ENOENT) else if opath == npath then None else Some(0)
      ensures rc == Some(ENOENT) ==> files == old(files) && dirs == old(dirs)
      ensures rc == Some(0) ==> files == old(files) - {opath} + {npath} && dirs.Keys == old(dirs).Keys
      ensures var clash := Canon(npath) in Canons(old(files) - {opath, npath}) || Canon(npath) + "/" in old(dirs);
        rc.Some? ==>
          && (Listings() <==> (rc == Some(0) ==> !clash))
          && (Valid() <==> (rc == Some(0) ==> !clash && DirKey(npath) in old(dirs)))
    {
      hide Good, Exact, Canons, Unlike, KeysOk, Canon, DirKey, DirOf, NameOf, Cut;
      GoodExact(Canons(files), dirs);
      if opath !in files {
        return Some(ENOENT);
      }
      RemoveTarget(npath);
      if opath !in files { // find(opath) is end(), and is dereferenced
        return None;
      }
      assert files - {opath} == old(files) - {opath, npath};
      assert files - {opath} + {npath} == old(files) - {opath} + {npath};
      CanonParts(opath);
      CanonParts(npath);
      FileMoved(files, dirs, opath, npath);
      files := files - {opath} + {npath};
      dirs := dirs[DirKey(opath) := dirs[DirKey(opath)].Remove(NameOf(opath))];
      if DirKey(npath) in dirs {
        dirs := dirs[DirKey(npath) := dirs[DirKey(npath)].Add(NameOf(npath))];
      }
      return Some(0);
    }

    method RemoveTarget(npath: string)
      requires Valid()
      modifies this
      ensures Valid() && files == old(files) - {npath} && dirs.Keys == old(dirs).Keys
    {
      CanonParts(npath);
      if npath in files {
        TargetGone(files, dirs, npath);
        hide Good, Canons, Unlike;
        files := files - {npath};
        dirs := dirs[DirKey(npath) := dirs[DirKey(npath)].Remove(NameOf(npath))];
      }
    }

    /** `do_rename`: the directory at `opath` moves if there is one, and otherwise the file. A directory other than the
        root is looked for, and found again later, under its path with one slash added. */
    method Rename(opath: string, npath: string) returns (rc: Option<int>)
      requires Valid()
      modifies this
      ensures var o := if |opath| > 1 then opath + "/" else opath; var n := if |npath| > 1 then npath + "/" else npath;
        o in old(dirs) ==>
          && rc == Some(if n in old(dirs) then EEXIST else 0) && files == old(files)
          && dirs == (if rc == Some(0) then old(dirs)[n := old(dirs)[o]] - {o} else old(dirs))
          && (Valid() <==> rc != Some(0))
          && (Listings() <==> rc != Some(0) || (o == ROOT && n != "" && old(dirs)[ROOT].files == {}))
      ensures var o := if |opath| > 1 then opath + "/" else opath;
        o !in old(dirs) ==>
          && rc == (if opath !in old(files) then Some(ENOENT) else if opath == npath then None else Some(0))
          && (rc == Some(ENOENT) ==> files == old(files) && dirs == old(dirs))
          && (rc == Some(0) ==> files == old(files) - {opath} + {npath} && dirs.Keys == old(dirs).Keys)
          && (rc.Some? ==> (Valid() <==> (rc == Some(0) ==>
                && Canon(npath) !in Canons(old(files) - {opath, npath}) && Canon(npath) + "/" !in old(dirs)
                && DirKey(npath) in old(dirs))))
    {
      hide Good, Exact, Canons, Unlike, KeysOk, Canon, DirKey;
      var okey, nkey := opath, npath;
      if |okey| > 1 {
        okey := okey + "/";
      }
      if |nkey| > 1 {
        nkey := nkey + "/";
      }
      if okey in dirs {
        var code := RenameDir(okey, nkey);
        rc := Some(code);
      } else {
        rc := RenameFile(opath, npath);
      }
    }
  }

  lemma PathA()
    ensures KeyOf("/a") == "/a/" && PathOf("/a/") == "/a" && "/a" + "/" == "/a/" && Canon("/a") == "/a"
    ensures DirOf("/a") == ROOT && NameOf("/a") == "a" && DirKey("/a") == ROOT && "/a/" != ROOT
    ensures var d := Listed(Grown(map[ROOT := Dir({}, 1)], "/a"), "/a");
      && d == map[ROOT := Dir({"a"}, 2), "/a/" := Dir({}, 1)]
      && Listed(d, "/a") == map[ROOT := Dir({"a"}, 3), "/a/" := Dir({}, 1)]
  {
    CutIs("/a", 1);
    assert "/a"[..1] == ROOT && "/a"[1..] == "a" && "/a" + "/" == "/a/";
    assert DirOf("/a") == ROOT && NameOf("/a") == "a";
    assert "/a/" != ROOT && {} + {"a"} == {"a"} && {"a"} + {"a"} == {"a"};
    var d := Listed(Grown(map[ROOT := Dir({}, 1)], "/a"), "/a");
    assert d == map[ROOT := Dir({"a"}, 2), "/a/" := Dir({}, 1)];
    assert d[ROOT].Add("a") == Dir({"a"}, 3);
  }

  /** A directory and a file of the same path: the parent counts one link more than it lists. */
  method SamePathTwice() returns (backend: Backend, rc: int)
    ensures rc == 0 && !backend.Listings() && !backend.Valid()
    ensures backend.dirs == map[ROOT := Dir({"a"}, 3), "/a/" := Dir({}, 1)]
  {
    PathA();
    NoCanons();
    hide *;
    backend := new Backend();
    rc := backend.MkDir("/a");
    assert backend.dirs == map[ROOT := Dir({"a"}, 2), "/a/" := Dir({}, 1)];
    DirTakes(backend, "/a");
    rc := backend.Create("/a");
  }

  /** A directory that has been renamed is still listed under its old name. */
  method RenamedDirIsLost() returns (backend: Backend, rc: Option<int>)
    ensures rc == Some(0) && !backend.Listings()
    ensures backend.dirs == map[ROOT := Dir({"a"}, 2), "/b/" := Dir({}, 1)]
  {
    PathA();
    NoCanons();
    PathB();
    hide *;
    backend := new Backend();
    var made := backend.MkDir("/a");
    assert backend.dirs == map[ROOT := Dir({"a"}, 2), "/a/" := Dir({}, 1)];
    rc := backend.Rename("/a", "/b");
  }

  /** A file that has been renamed into a missing directory is in no listing. */
  method RenamedFileIsLost() returns (backend: Backend, rc: Option<int>)
    ensures rc == Some(0) && backend.files == {"/x/b"} && backend.dirs.Keys == {ROOT} && !backend.Valid()
  {
    PathA();
    PathX();
    NoCanons();
    hide *;
    backend := new Backend();
    FreePath(backend, "/a");
    var created := backend.Create("/a");
    rc := backend.RenameFile("/a", "/x/b");
    assert {} + {"/a"} - {"/a"} + {"/x/b"} == {"/x/b"};
  }

  /** A file that is renamed to its own path. */
  method RenamedToItself() returns (rc: Option<int>)
    ensures rc == None
  {
    PathA();
    NoCanons();
    hide *;
    var backend := new Backend();
    FreePath(backend, "/a");
    var created := backend.Create("/a");
    rc := backend.RenameFile("/a", "/a");
  }

  lemma PathX()
    ensures DirKey("/x/b") == "/x/" && "/x/" != ROOT && "/x/b" != "/a"
    ensures DirOf("/a") == ROOT && Listed(map[ROOT := Dir({}, 1)], "/a").Keys == {ROOT}
  {
    PathA();
    CutIs("/x/b", 3);
    assert Listed(map[ROOT := Dir({}, 1)], "/a").Keys == {ROOT};
    assert "/x/b"[..3] == "/x/" && |"/a"| == 2 && |"/x/b"| == 4;
  }

  lemma FreePath(backend: Backend, path: string)
    requires backend.files == {} && Canon(path) + "/" !in backend.dirs
    ensures !backend.Taken(path)
  {
  }

  lemma PathB()
    ensures "/a/" != ROOT && |"/b/"| == 3 && "/b/"[2] == '/' && |"/a"| == |"/b"| == 2 && "/b" + "/" == "/b/"
    ensures var d := map[ROOT := Dir({"a"}, 2), "/a/" := Dir({}, 1)];
      && "/a/" in d && "/b/" !in d
      && d["/b/" := d["/a/"]] - {"/a/"} == map[ROOT := Dir({"a"}, 2), "/b/" := Dir({}, 1)]
  {
    assert "/b/"[1] != "/a/"[1] && |ROOT| == 1;
  }

  lemma NoCanons()
    ensures Canons({}) == {}
  {
  }

  lemma DirTakes(backend: Backend, path: string)
    ensures Canon(path) + "/" in backend.dirs ==> backend.Taken(path)
  {
  }

  lemma GoodExact(files: set<string>, dirs: map<string, Dir>)
    requires Good(files, dirs)
    ensures "" !in dirs && Exact(files, dirs)
  {
  }

  lemma KeysNoEmpty(dirs: map<string, Dir>)
    requires KeysOk(dirs)
    ensures "" !in dirs
  {
  }
}
