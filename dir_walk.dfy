/**
  The traversal of one configured folder: a top-down `os.walk` whose caller
  prunes `dirs` in place before the walk descends. At each directory the walk
  hands over its files first, then walks each surviving subdirectory in
  listing order. The configured folder itself is never tested against the
  ignore list.
*/
module DirWalk {
  import opened Seqs
  import opened PathOps
  import opened Exclusion

  /** A directory as the walk lists it: its file names and its subdirectories, in listing order. */
  datatype Dir = Dir(name: string, files: seq<string>, subdirs: seq<Dir>)

  /**
    A file the walk reaches: the path `os.path.join(root, file)`, the base name
    the exclusion rules test, and the names of the subdirectories descended
    through from the configured folder.
  */
  datatype Visit = Visit(path: string, name: string, dirs: seq<string>)

  /** `dirs[:] = [d for d in dirs if d not in ignore_folders]`. */
  function Prune(subdirs: seq<Dir>, ignoreFolders: set<string>): (kept: seq<Dir>)
    ensures |kept| <= |subdirs|
    ensures forall d :: d in kept <==> d in subdirs && !IsPrunedDir(d.name, ignoreFolders)
  {
    if subdirs == [] then []
    else
      var rest := Prune(subdirs[1..], ignoreFolders);
      assert forall d :: d in subdirs <==> d == subdirs[0] || d in subdirs[1..];
      if IsPrunedDir(subdirs[0].name, ignoreFolders) then rest else [subdirs[0]] + rest
  }

  /** Nothing is pruned when no folder name is ignored. */
  lemma {:induction false} PruneNothing(subdirs: seq<Dir>)
    ensures Prune(subdirs, {}) == subdirs
    decreases |subdirs|
  {
    if subdirs != [] {
      PruneNothing(subdirs[1..]);
    }
  }

  /** The files of one directory, in listing order. */
  function FileVisits(root: string, dirs: seq<string>, files: seq<string>): seq<Visit> {
    seq(|files|, k requires 0 <= k < |files| => Visit(JoinPath(root, files[k]), files[k], dirs))
  }

  /**
    Every file the walk of `d` reaches, `d` being the directory at path `root`
    reached through the subdirectories `dirs`; each visit lies below `dirs`.
  */
  function WalkDir(root: string, dirs: seq<string>, d: Dir, ignoreFolders: set<string>): (vs: seq<Visit>)
    ensures forall v :: v in vs ==> dirs <= v.dirs
    decreases d, 1, 0
  {
    FileVisits(root, dirs, d.files) + WalkSubdirs(root, dirs, d, Prune(d.subdirs, ignoreFolders), ignoreFolders)
  }

  /** The walks of the subdirectories `kids` of `parent`, one after the other. */
  function WalkSubdirs(root: string, dirs: seq<string>, parent: Dir, kids: seq<Dir>, ignoreFolders: set<string>): (vs: seq<Visit>)
    requires forall k :: k in kids ==> k in parent.subdirs
    ensures forall v :: v in vs ==> |v.dirs| > |dirs| && dirs <= v.dirs
    decreases parent, 0, |kids|
  {
    if kids == [] then []
    else
      assert kids[0] in kids && kids[0] in parent.subdirs;
      var here := WalkDir(JoinPath(root, kids[0].name), dirs + [kids[0].name], kids[0], ignoreFolders);
      assert forall v :: v in here ==> |v.dirs| > |dirs| && dirs <= v.dirs by {
        forall v | v in here ensures |v.dirs| > |dirs| && dirs <= v.dirs {
          assert dirs + [kids[0].name] <= v.dirs;
          assert v.dirs[..|dirs|] == (dirs + [kids[0].name])[..|dirs|];
        }
      }
      here + WalkSubdirs(root, dirs, parent, kids[1..], ignoreFolders)
  }

  /** The visit lies under no ignored subdirectory. */
  predicate Allowed(v: Visit, ignoreFolders: set<string>) {
    forall n :: n in v.dirs ==> !IsPrunedDir(n, ignoreFolders)
  }

  /** The allowed visits, in order. */
  function KeepAllowed(vs: seq<Visit>, ignoreFolders: set<string>): seq<Visit> {
    if vs == [] then []
    else (if Allowed(vs[0], ignoreFolders) then [vs[0]] else []) + KeepAllowed(vs[1..], ignoreFolders)
  }

  /** What is kept is allowed, and was there to begin with. */
  lemma {:induction false} KeptAreAllowed(vs: seq<Visit>, ignoreFolders: set<string>)
    ensures forall v :: v in KeepAllowed(vs, ignoreFolders) ==> v in vs && Allowed(v, ignoreFolders)
    decreases |vs|
  {
    if vs != [] {
      KeptAreAllowed(vs[1..], ignoreFolders);
      forall v | v in KeepAllowed(vs, ignoreFolders) ensures v in vs && Allowed(v, ignoreFolders) {
        if v !in KeepAllowed(vs[1..], ignoreFolders) {
          assert v == vs[0];
        }
      }
    }
  }

  lemma {:induction false} KeepAllowedAppend(a: seq<Visit>, b: seq<Visit>, ignoreFolders: set<string>)
    ensures KeepAllowed(a + b, ignoreFolders) == KeepAllowed(a, ignoreFolders) + KeepAllowed(b, ignoreFolders)
    decreases |a|
  {
    if a == [] {
      assert a + b == b;
    } else {
      var head := if Allowed(a[0], ignoreFolders) then [a[0]] else [];
      calc {
        KeepAllowed(a + b, ignoreFolders);
        == { assert (a + b)[0] == a[0] && (a + b)[1..] == a[1..] + b; }
        head + KeepAllowed(a[1..] + b, ignoreFolders);
        == { KeepAllowedAppend(a[1..], b, ignoreFolders); }
        head + (KeepAllowed(a[1..], ignoreFolders) + KeepAllowed(b, ignoreFolders));
        == { AppendAssoc(head, KeepAllowed(a[1..], ignoreFolders), KeepAllowed(b, ignoreFolders)); }
        (head + KeepAllowed(a[1..], ignoreFolders)) + KeepAllowed(b, ignoreFolders);
      }
    }
  }

  lemma {:induction false} KeepAllowedAll(vs: seq<Visit>, ignoreFolders: set<string>)
    requires forall v :: v in vs ==> Allowed(v, ignoreFolders)
    ensures KeepAllowed(vs, ignoreFolders) == vs
    decreases |vs|
  {
    if vs != [] {
      assert vs[0] in vs;
      KeepAllowedAll(vs[1..], ignoreFolders);
    }
  }

  lemma {:induction false} KeepAllowedNone(vs: seq<Visit>, ignoreFolders: set<string>)
    requires forall v :: v in vs ==> !Allowed(v, ignoreFolders)
    ensures KeepAllowed(vs, ignoreFolders) == []
    decreases |vs|
  {
    if vs != [] {
      assert vs[0] in vs;
      KeepAllowedNone(vs[1..], ignoreFolders);
    }
  }

  /**
    Pruning in place is the same as walking the whole tree and then dropping
    every file below an ignored subdirectory. The configured folder is walked
    with `dirs == []`, so its own name is never tested.
  */
  lemma {:induction false} PruningDropsIgnoredSubtrees(root: string, dirs: seq<string>, d: Dir, ignoreFolders: set<string>)
    requires forall n :: n in dirs ==> !IsPrunedDir(n, ignoreFolders)
    ensures WalkDir(root, dirs, d, ignoreFolders) == KeepAllowed(WalkDir(root, dirs, d, {}), ignoreFolders)
    decreases d, 1, 0
  {
    var files := FileVisits(root, dirs, d.files);
    PruneNothing(d.subdirs);
    KeepAllowedAppend(files, WalkSubdirs(root, dirs, d, d.subdirs, {}), ignoreFolders);
    KeepAllowedAll(files, ignoreFolders);
    PruningDropsIgnoredKids(root, dirs, d, d.subdirs, ignoreFolders);
  }

  lemma {:induction false} PruningDropsIgnoredKids(root: string, dirs: seq<string>, parent: Dir, kids: seq<Dir>, ignoreFolders: set<string>)
    requires forall k :: k in kids ==> k in parent.subdirs
    requires forall n :: n in dirs ==> !IsPrunedDir(n, ignoreFolders)
    ensures WalkSubdirs(root, dirs, parent, Prune(kids, ignoreFolders), ignoreFolders)
         == KeepAllowed(WalkSubdirs(root, dirs, parent, kids, {}), ignoreFolders)
    decreases parent, 0, |kids|
  {
    if kids != [] {
      var k := kids[0];
      assert k in kids;
      var path, below := JoinPath(root, k.name), dirs + [k.name];
      var full := WalkDir(path, below, k, {});
      KeepAllowedAppend(full, WalkSubdirs(root, dirs, parent, kids[1..], {}), ignoreFolders);
      PruningDropsIgnoredKids(root, dirs, parent, kids[1..], ignoreFolders);
      if IsPrunedDir(k.name, ignoreFolders) {
        forall v | v in full ensures !Allowed(v, ignoreFolders) {
          assert v.dirs[|dirs|] == below[|dirs|];
        }
        KeepAllowedNone(full, ignoreFolders);
      } else {
        PruningDropsIgnoredSubtrees(path, below, k, ignoreFolders);
        var pruned := Prune(kids, ignoreFolders);
        assert pruned[0] == k && pruned[1..] == Prune(kids[1..], ignoreFolders);
      }
    }
  }

  /** No file below a subdirectory whose name is ignored is ever reached. */
  lemma NothingBelowIgnoredFolders(root: string, d: Dir, ignoreFolders: set<string>)
    ensures forall v :: v in WalkDir(root, [], d, ignoreFolders) ==> Allowed(v, ignoreFolders)
  {
    PruningDropsIgnoredSubtrees(root, [], d, ignoreFolders);
    KeptAreAllowed(WalkDir(root, [], d, {}), ignoreFolders);
  }

  /**
    Following the subdirectory names `dirs` down from `d` leads to a
    directory that lists the file `name`.
  */
  ghost predicate FileIn(d: Dir, dirs: seq<string>, name: string)
    decreases |dirs|
  {
    if dirs == [] then name in d.files
    else exists k :: k in d.subdirs && k.name == dirs[0] && FileIn(k, dirs[1..], name)
  }

  /** The path of the file `name` reached through `dirs` from the directory at path `root`. */
  function PathOf(root: string, dirs: seq<string>, name: string): string
    decreases |dirs|
  {
    if dirs == [] then JoinPath(root, name) else PathOf(JoinPath(root, dirs[0]), dirs[1..], name)
  }

  /** `v` is a file of `d`, the directory at path `root` reached through `pre`, with its path built by `join`. */
  ghost predicate InTree(root: string, pre: seq<string>, d: Dir, v: Visit) {
    pre <= v.dirs && FileIn(d, v.dirs[|pre|..], v.name) && v.path == PathOf(root, v.dirs[|pre|..], v.name)
  }

  /** The number of files listed in a tree, every directory counted. */
  function FileCount(d: Dir): nat
    decreases d, 1
  {
    |d.files| + KidsFileCount(d, d.subdirs)
  }

  function KidsFileCount(parent: Dir, kids: seq<Dir>): nat
    requires forall k :: k in kids ==> k in parent.subdirs
    decreases parent, 0, |kids|
  {
    if kids == [] then 0
    else
      assert kids[0] in kids && kids[0] in parent.subdirs;
      FileCount(kids[0]) + KidsFileCount(parent, kids[1..])
  }

  /** A file of a subdirectory `k` is a file of its parent, one name further down. */
  lemma ChildInTree(root: string, pre: seq<string>, d: Dir, k: Dir, v: Visit)
    ensures InTree(JoinPath(root, k.name), pre + [k.name], k, v) <==>
      && pre <= v.dirs && |v.dirs| > |pre| && v.dirs[|pre|] == k.name
      && FileIn(k, v.dirs[|pre| + 1..], v.name)
      && v.path == PathOf(JoinPath(root, k.name), v.dirs[|pre| + 1..], v.name)
  {
    if pre + [k.name] <= v.dirs {
      assert v.dirs[..|pre|] == (pre + [k.name])[..|pre|];
      assert v.dirs[|pre|] == (pre + [k.name])[|pre|];
    }
    if pre <= v.dirs && |v.dirs| > |pre| && v.dirs[|pre|] == k.name {
      assert v.dirs[..|pre| + 1] == v.dirs[..|pre|] + [v.dirs[|pre|]];
    }
  }

  /**
    Without pruning, the walk of a tree reaches exactly its files: a visit is
    walked when, and only when, the names it went through lead to a directory
    listing its file, and its path is the `join` of those names.
  */
  lemma {:induction false} WalkFindsTreeFiles(root: string, pre: seq<string>, d: Dir, v: Visit)
    ensures v in WalkDir(root, pre, d, {}) <==> InTree(root, pre, d, v)
    decreases d, 1, 0
  {
    var files := FileVisits(root, pre, d.files);
    PruneNothing(d.subdirs);
    var rest := WalkSubdirs(root, pre, d, d.subdirs, {});
    assert WalkDir(root, pre, d, {}) == files + rest;
    KidsFindTreeFiles(root, pre, d, d.subdirs, v);
    OwnFiles(root, pre, d.files, v);
    if pre <= v.dirs {
      if |v.dirs| == |pre| {
        InTreeHere(root, pre, d, v);
      } else {
        InTreeBelow(root, pre, d, v);
      }
    }
  }

  /** The visits of a directory's own files are those with no further name and a listed file. */
  lemma OwnFiles(root: string, pre: seq<string>, files: seq<string>, v: Visit)
    ensures v in FileVisits(root, pre, files) <==> v.dirs == pre && v.name in files && v.path == JoinPath(root, v.name)
  {
    if v.dirs == pre && v.name in files && v.path == JoinPath(root, v.name) {
      var i :| 0 <= i < |files| && files[i] == v.name;
      assert FileVisits(root, pre, files)[i] == v;
    }
  }

  /** A file reached through `pre` itself is one that `d` lists. */
  lemma InTreeHere(root: string, pre: seq<string>, d: Dir, v: Visit)
    requires pre <= v.dirs && |v.dirs| == |pre|
    ensures v.dirs == pre
    ensures InTree(root, pre, d, v) <==> v.name in d.files && v.path == JoinPath(root, v.name)
  {
    assert v.dirs[|pre|..] == [];
  }

  /** A file reached through more names than `pre` is a file of one of `d`'s subdirectories. */
  lemma InTreeBelow(root: string, pre: seq<string>, d: Dir, v: Visit)
    requires pre <= v.dirs && |v.dirs| > |pre|
    ensures InTree(root, pre, d, v) <==> exists k :: k in d.subdirs && InTree(JoinPath(root, k.name), pre + [k.name], k, v)
  {
    if InTree(root, pre, d, v) {
      var k := BelowSomeChild(root, pre, d, v);
    }
    if exists k :: k in d.subdirs && InTree(JoinPath(root, k.name), pre + [k.name], k, v) {
      var k :| k in d.subdirs && InTree(JoinPath(root, k.name), pre + [k.name], k, v);
      ChildFileInTree(root, pre, d, k, v);
    }
  }

  /** The subdirectory a file below `d` lies in. */
  lemma BelowSomeChild(root: string, pre: seq<string>, d: Dir, v: Visit) returns (k: Dir)
    requires pre <= v.dirs && |v.dirs| > |pre| && InTree(root, pre, d, v)
    ensures k in d.subdirs && InTree(JoinPath(root, k.name), pre + [k.name], k, v)
  {
    var s := v.dirs[|pre|..];
    assert s[1..] == v.dirs[|pre| + 1..] && s[0] == v.dirs[|pre|];
    k :| k in d.subdirs && k.name == s[0] && FileIn(k, s[1..], v.name);
    ChildInTree(root, pre, d, k, v);
  }

  /** A file of a subdirectory is a file of the tree. */
  lemma ChildFileInTree(root: string, pre: seq<string>, d: Dir, k: Dir, v: Visit)
    requires k in d.subdirs && InTree(JoinPath(root, k.name), pre + [k.name], k, v)
    ensures InTree(root, pre, d, v)
  {
    ChildInTree(root, pre, d, k, v);
    var s := v.dirs[|pre|..];
    assert s[1..] == v.dirs[|pre| + 1..] && s[0] == v.dirs[|pre|];
    assert FileIn(d, s, v.name);
  }

  lemma {:induction false} KidsFindTreeFiles(root: string, pre: seq<string>, parent: Dir, kids: seq<Dir>, v: Visit)
    requires forall k :: k in kids ==> k in parent.subdirs
    ensures v in WalkSubdirs(root, pre, parent, kids, {}) <==>
      exists k :: k in kids && InTree(JoinPath(root, k.name), pre + [k.name], k, v)
    decreases parent, 0, |kids|
  {
    if kids != [] {
      var k0 := kids[0];
      assert k0 in kids;
      WalkFindsTreeFiles(JoinPath(root, k0.name), pre + [k0.name], k0, v);
      KidsFindTreeFiles(root, pre, parent, kids[1..], v);
      if exists k :: k in kids && InTree(JoinPath(root, k.name), pre + [k.name], k, v) {
        var k :| k in kids && InTree(JoinPath(root, k.name), pre + [k.name], k, v);
        if k != k0 {
          assert k in kids[1..];
        }
      }
    }
  }

  /** From the configured folder: the walk without pruning reaches exactly the files of the tree. */
  lemma WalkFindsEveryFile(root: string, d: Dir, v: Visit)
    ensures v in WalkDir(root, [], d, {}) <==> FileIn(d, v.dirs, v.name) && v.path == PathOf(root, v.dirs, v.name)
  {
    WalkFindsTreeFiles(root, [], d, v);
    assert v.dirs[0..] == v.dirs;
  }

  /** The walk without pruning has one visit per file listed anywhere in the tree. */
  lemma {:induction false} WalkVisitsEachFileOnce(root: string, pre: seq<string>, d: Dir)
    ensures |WalkDir(root, pre, d, {})| == FileCount(d)
    decreases d, 1, 0
  {
    PruneNothing(d.subdirs);
    KidsVisitEachFileOnce(root, pre, d, d.subdirs);
  }

  lemma {:induction false} KidsVisitEachFileOnce(root: string, pre: seq<string>, parent: Dir, kids: seq<Dir>)
    requires forall k :: k in kids ==> k in parent.subdirs
    ensures |WalkSubdirs(root, pre, parent, kids, {})| == KidsFileCount(parent, kids)
    decreases parent, 0, |kids|
  {
    if kids != [] {
      assert kids[0] in kids;
      WalkVisitsEachFileOnce(JoinPath(root, kids[0].name), pre + [kids[0].name], kids[0]);
      KidsVisitEachFileOnce(root, pre, parent, kids[1..]);
    }
  }

  /** No two entries of `s` are equal. */
  predicate NoRepeats(s: seq<Visit>) {
    forall i, j :: 0 <= i < j < |s| ==> s[i] != s[j]
  }

  /** No two subdirectories of `kids` share a name. */
  predicate DistinctNames(kids: seq<Dir>) {
    forall i, j :: 0 <= i < j < |kids| ==> kids[i].name != kids[j].name
  }

  /**
    A tree a filesystem can hold: within each directory, no file name is
    listed twice and no two subdirectories share a name.
  */
  ghost predicate UniqueNames(d: Dir)
    decreases d
  {
    && (forall i, j :: 0 <= i < j < |d.files| ==> d.files[i] != d.files[j])
    && DistinctNames(d.subdirs)
    && (forall k :: k in d.subdirs ==> UniqueNames(k))
  }

  /** Pruning keeps a subsequence, so distinct names stay distinct. */
  lemma {:induction false} PruneKeepsDistinctNames(subdirs: seq<Dir>, ignoreFolders: set<string>)
    requires DistinctNames(subdirs)
    ensures DistinctNames(Prune(subdirs, ignoreFolders))
    decreases |subdirs|
  {
    if subdirs != [] {
      TailNamesDiffer(subdirs);
      PruneKeepsDistinctNames(subdirs[1..], ignoreFolders);
      var rest := Prune(subdirs[1..], ignoreFolders);
      if !IsPrunedDir(subdirs[0].name, ignoreFolders) {
        var kept := [subdirs[0]] + rest;
        forall i, j | 0 <= i < j < |kept| ensures kept[i].name != kept[j].name {
          if i == 0 {
            assert kept[j] == rest[j - 1] && rest[j - 1] in rest;
          } else {
            assert kept[i] == rest[i - 1] && kept[j] == rest[j - 1];
          }
        }
      }
    }
  }

  /** Two repeat-free sequences with nothing in common concatenate to a repeat-free one. */
  lemma NoRepeatsAppend(a: seq<Visit>, b: seq<Visit>)
    requires NoRepeats(a) && NoRepeats(b)
    requires forall v :: v in a ==> v !in b
    ensures NoRepeats(a + b)
  {
    forall i, j | 0 <= i < j < |a + b| ensures (a + b)[i] != (a + b)[j] {
      if j < |a| {
        assert (a + b)[i] == a[i] && (a + b)[j] == a[j];
      } else if i < |a| {
        assert (a + b)[i] == a[i] && a[i] in a && (a + b)[j] == b[j - |a|] && b[j - |a|] in b;
      } else {
        assert (a + b)[i] == b[i - |a|] && (a + b)[j] == b[j - |a|];
      }
    }
  }

  /** The visits of a directory's own files repeat nothing when the names are distinct. */
  lemma OwnFilesNoRepeats(root: string, pre: seq<string>, files: seq<string>)
    requires forall i, j :: 0 <= i < j < |files| ==> files[i] != files[j]
    ensures NoRepeats(FileVisits(root, pre, files))
    ensures forall v :: v in FileVisits(root, pre, files) ==> v.dirs == pre
  {
    var vs := FileVisits(root, pre, files);
    forall i, j | 0 <= i < j < |vs| ensures vs[i] != vs[j] {
      assert vs[i].name == files[i] && vs[j].name == files[j];
    }
  }

  /**
    On a tree a filesystem can hold, the walk, pruned or not, reaches no file
    twice: every visit names a different file.
  */
  lemma {:induction false} WalkRepeatsNoVisit(root: string, pre: seq<string>, d: Dir, ignoreFolders: set<string>)
    requires UniqueNames(d)
    ensures NoRepeats(WalkDir(root, pre, d, ignoreFolders))
    decreases d, 1, 0
  {
    var files := FileVisits(root, pre, d.files);
    var kids := Prune(d.subdirs, ignoreFolders);
    var rest := WalkSubdirs(root, pre, d, kids, ignoreFolders);
    OwnFilesNoRepeats(root, pre, d.files);
    PruneKeepsDistinctNames(d.subdirs, ignoreFolders);
    KidsRepeatNoVisit(root, pre, d, kids, ignoreFolders);
    NoRepeatsAppend(files, rest);
  }

  lemma {:induction false} KidsRepeatNoVisit(root: string, pre: seq<string>, parent: Dir, kids: seq<Dir>, ignoreFolders: set<string>)
    requires forall k :: k in kids ==> k in parent.subdirs
    requires DistinctNames(kids)
    requires forall k :: k in kids ==> UniqueNames(k)
    ensures NoRepeats(WalkSubdirs(root, pre, parent, kids, ignoreFolders))
    ensures forall v :: v in WalkSubdirs(root, pre, parent, kids, ignoreFolders) ==>
      exists k :: k in kids && v.dirs[|pre|] == k.name
    decreases parent, 0, |kids|
  {
    if kids != [] {
      var k0 := kids[0];
      var tail := kids[1..];
      assert k0 in kids && k0 in parent.subdirs;
      var here := WalkDir(JoinPath(root, k0.name), pre + [k0.name], k0, ignoreFolders);
      var rest := WalkSubdirs(root, pre, parent, tail, ignoreFolders);
      WalkRepeatsNoVisit(JoinPath(root, k0.name), pre + [k0.name], k0, ignoreFolders);
      ChildVisitsBelowName(root, pre, k0, ignoreFolders);
      TailNamesDiffer(kids);
      KidsRepeatNoVisit(root, pre, parent, tail, ignoreFolders);
      assert forall v :: v in rest ==> v.dirs[|pre|] != k0.name;
      NoRepeatsAppend(here, rest);
    }
  }

  /** Every file reached through subdirectory `k` has `k`'s name after `pre`. */
  lemma ChildVisitsBelowName(root: string, pre: seq<string>, k: Dir, ignoreFolders: set<string>)
    ensures forall v :: v in WalkDir(JoinPath(root, k.name), pre + [k.name], k, ignoreFolders) ==>
      |v.dirs| > |pre| && v.dirs[|pre|] == k.name
  {
    assert (pre + [k.name])[|pre|] == k.name;
  }

  /** After the first of distinctly named subdirectories, the rest are distinct and differ from it. */
  lemma TailNamesDiffer(kids: seq<Dir>)
    requires kids != [] && DistinctNames(kids)
    ensures DistinctNames(kids[1..])
    ensures forall k :: k in kids[1..] ==> k.name != kids[0].name
  {
    var tail := kids[1..];
    forall i, j | 0 <= i < j < |tail| ensures tail[i].name != tail[j].name {
      assert tail[i] == kids[i + 1] && tail[j] == kids[j + 1];
    }
    forall k | k in tail ensures k.name != kids[0].name {
      var m :| 0 <= m < |tail| && tail[m] == k;
      assert kids[m + 1] == k;
    }
  }

  /** The configured folder's own files are always the first visits, whatever its name. */
  lemma RootFilesComeFirst(root: string, d: Dir, ignoreFolders: set<string>)
    ensures |WalkDir(root, [], d, ignoreFolders)| >= |d.files|
    ensures forall k :: 0 <= k < |d.files| ==>
      WalkDir(root, [], d, ignoreFolders)[k] == Visit(JoinPath(root, d.files[k]), d.files[k], [])
  {
  }
}
