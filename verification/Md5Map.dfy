/** aosp_post_build_injector.py: the map from MD5 digests to intermediate files,
    built over a walk that leaves out excluded directories. */
module Md5Map {
  import opened DirectoryWalk
  import opened Options
  import opened Text

  type Md5s = map<string, seq<FilePath>>

  /** What the file system says about a file; None stands for an exception. */
  datatype Disk = Disk(size: FilePath -> Option<nat>, digest: FilePath -> Option<string>)

  /** Some excluded path is a prefix of the text of a path. */
  predicate Excluded(excludes: seq<string>, dir: Path) {
    exists i :: 0 <= i < |excludes| && excludes[i] <= PathText(dir)
  }

  // ----- the pruned walk -----

  /** `dirs.remove(d)` */
  function RemoveFirst(es: seq<Entry>, e: Entry): seq<Entry> {
    if es == [] then [] else if es[0] == e then es[1..] else [es[0]] + RemoveFirst(es[1..], e)
  }

  lemma {:induction false} RemovesThere(a: seq<Entry>, e: Entry, b: seq<Entry>)
    requires e !in a
    ensures RemoveFirst(a + [e] + b, e) == a + b
    decreases |a|
  {
    if a == [] {
      assert a + [e] + b == [e] + b;
    } else {
      assert a[0] in a;
      assert (a + [e] + b)[1..] == a[1..] + [e] + b;
      RemovesThere(a[1..], e, b);
    }
  }

  function NotExcluded(path: Path, ds: seq<Entry>, excludes: seq<string>): seq<Entry> {
    if ds == [] then []
    else NotExcluded(path, ds[..|ds| - 1], excludes)
         + if Excluded(excludes, path + [ds[|ds| - 1].name]) then [] else [ds[|ds| - 1]]
  }

  lemma {:induction false} NotExcludedIn(path: Path, ds: seq<Entry>, excludes: seq<string>, d: Entry)
    ensures d in NotExcluded(path, ds, excludes) <==> d in ds && !Excluded(excludes, path + [d.name])
    decreases |ds|
  {
    if ds != [] {
      NotExcludedIn(path, ds[..|ds| - 1], excludes, d);
      assert ds == ds[..|ds| - 1] + [ds[|ds| - 1]];
    }
  }

  function FilesHere(path: Path, es: seq<Entry>): set<FilePath> {
    set e | e in es && e.node.File? :: FilePath(path, e.name)
  }

  /** The files of a directory and of everything below it that is not pruned. */
  function Pruned(path: Path, node: Node, excludes: seq<string>): set<FilePath>
    decreases node
  {
    if !Lists(node) then {} else FilesHere(path, node.entries) + PrunedIn(path, node.entries, excludes)
  }

  function PrunedIn(path: Path, es: seq<Entry>, excludes: seq<string>): set<FilePath>
    decreases es
  {
    if es == [] then {}
    else
      var e := es[|es| - 1];
      PrunedIn(path, es[..|es| - 1], excludes)
      + if Excluded(excludes, path + [e.name]) then {} else Pruned(path + [e.name], e.node, excludes)
  }

  lemma {:induction false} PathTextPrefix(a: Path, b: Path)
    requires a <= b
    ensures PathText(a) <= PathText(b)
    decreases |b|
  {
    if a != b {
      var n := |b| - 1;
      PathTextPrefix(a, b[..n]);
      if n == 0 {
        assert a == [];
      } else {
        assert PathText(b[..n]) <= PathText(b);
      }
    }
  }

  lemma {:induction false} ListedBelow(path: Path, node: Node, p: FilePath)
    requires p in Listed(Preorder(path, node, true))
    ensures path <= p.dir
    decreases node
  {
    var first := [Visit(path, DirNames(node.entries, true), FileNames(node.entries, true))];
    ListedAdd(first, PreorderIn(path, node.entries, true));
    if p !in Listed(first) {
      ListedBelowIn(path, node.entries, p);
    }
  }

  lemma {:induction false} ListedBelowIn(path: Path, es: seq<Entry>, p: FilePath)
    requires p in Listed(PreorderIn(path, es, true))
    ensures path < p.dir
    decreases es
  {
    var n, e := |es| - 1, es[|es| - 1];
    ListedAdd(PreorderIn(path, es[..n], true), Preorder(path + [e.name], e.node, true));
    if p in Listed(PreorderIn(path, es[..n], true)) {
      ListedBelowIn(path, es[..n], p);
    } else {
      ListedBelow(path + [e.name], e.node, p);
    }
  }

  lemma {:induction false} FilesHereNames(path: Path, es: seq<Entry>, p: FilePath)
    ensures p in FilesHere(path, es) <==> p.dir == path && p.name in FileNames(es, true)
    decreases |es|
  {
    if es != [] {
      FilesHereNames(path, es[..|es| - 1], p);
      assert es == es[..|es| - 1] + [es[|es| - 1]];
    }
  }

  /** A file the walk keeps: in the root, or in no directory that is excluded. */
  ghost predicate Kept(path: Path, node: Node, excludes: seq<string>, p: FilePath) {
    p in Listed(Preorder(path, node, true)) && (p.dir == path || !Excluded(excludes, p.dir))
  }

  /** Leaving excluded directories out of the walk is the same as dropping, after
      a full walk, the files whose directory is excluded; the root is not checked. */
  lemma {:induction false} PruneIsFilter(path: Path, node: Node, excludes: seq<string>, p: FilePath)
    ensures p in Pruned(path, node, excludes) <==> Kept(path, node, excludes, p)
    decreases node
  {
    if Lists(node) {
      var es := node.entries;
      var first := [Visit(path, DirNames(es, true), FileNames(es, true))];
      ListedAdd(first, PreorderIn(path, es, true));
      FilesHereNames(path, es, p);
      PruneIsFilterIn(path, es, excludes, p);
      hide PreorderIn, PrunedIn, FileNames, FilesHere, DirNames, Excluded;
      assert p in Listed(first) <==> p.dir == path && p.name in FileNames(es, true);
      if p in Listed(PreorderIn(path, es, true)) { ListedBelowIn(path, es, p); }
    }
  }

  lemma {:induction false} PruneIsFilterIn(path: Path, es: seq<Entry>, excludes: seq<string>, p: FilePath)
    ensures p in PrunedIn(path, es, excludes) <==> p in Listed(PreorderIn(path, es, true)) && !Excluded(excludes, p.dir)
    decreases es
  {
    if es != [] {
      var n, e := |es| - 1, es[|es| - 1];
      var child := path + [e.name];
      PruneIsFilterIn(path, es[..n], excludes, p);
      PruneIsFilter(child, e.node, excludes, p);
      ListedAdd(PreorderIn(path, es[..n], true), Preorder(child, e.node, true));
      if p in Listed(Preorder(child, e.node, true)) {
        ListedBelow(child, e.node, p);
        if Excluded(excludes, child) { ExcludedBelow(excludes, child, p.dir); }
      }
      hide Preorder, Listed, Excluded, Pruned;
    }
  }

  lemma ExcludedBelow(excludes: seq<string>, dir: Path, below: Path)
    requires dir <= below && Excluded(excludes, dir)
    ensures Excluded(excludes, below)
  {
    PathTextPrefix(dir, below);
    var i :| 0 <= i < |excludes| && excludes[i] <= PathText(dir);
    assert excludes[i] <= PathText(below);
  }

  lemma DropOne<T>(s: seq<T>, i: nat)
    requires i < |s|
    ensures s[i..] == [s[i]] + s[i + 1..]
  {}

  /** `dirs` when the loop is at `i`. */
  function Half(path: Path, ds: seq<Entry>, excludes: seq<string>, i: nat): seq<Entry>
    requires i <= |ds|
  { NotExcluded(path, ds[..i], excludes) + ds[i..] }

  lemma PruneEnds(path: Path, ds: seq<Entry>, excludes: seq<string>)
    ensures Half(path, ds, excludes, 0) == ds
    ensures Half(path, ds, excludes, |ds|) == NotExcluded(path, ds, excludes)
  {
    assert ds[..0] == [] && ds[..|ds|] == ds;
  }

  lemma PruneTurn(path: Path, ds: seq<Entry>, excludes: seq<string>, i: nat)
    requires i < |ds|
    ensures Half(path, ds, excludes, i + 1)
         == if Excluded(excludes, path + [ds[i].name]) then RemoveFirst(Half(path, ds, excludes, i), ds[i])
            else Half(path, ds, excludes, i)
  {
    var kept, d, rest := NotExcluded(path, ds[..i], excludes), ds[i], ds[i + 1..];
    NotExcludedNext(path, ds, excludes, i);
    NotExcludedIn(path, ds[..i], excludes, d);
    hide Excluded, RemoveFirst, NotExcluded;
    DropOne(ds, i);
    Associate(kept, [d], rest);
    if d !in kept { RemovesThere(kept, d, rest); }
  }

  lemma NotExcludedNext(path: Path, ds: seq<Entry>, excludes: seq<string>, i: nat)
    requires i < |ds|
    ensures NotExcluded(path, ds[..i + 1], excludes)
         == NotExcluded(path, ds[..i], excludes) + if Excluded(excludes, path + [ds[i].name]) then [] else [ds[i]]
  {
    assert ds[..i + 1][..i] == ds[..i];
  }

  /** The in-place pruning: the loop goes over a copy and removes from `dirs`. */
  method Prune(path: Path, subdirs: seq<Entry>, excludes: seq<string>) returns (dirs: seq<Entry>)
    ensures dirs == NotExcluded(path, subdirs, excludes)
  {
    hide Excluded, RemoveFirst, NotExcluded;
    dirs := subdirs;
    PruneEnds(path, subdirs, excludes);
    for i := 0 to |subdirs|
      invariant dirs == Half(path, subdirs, excludes, i)
    {
      PruneTurn(path, subdirs, excludes, i);
      if Excluded(excludes, path + [subdirs[i].name]) {
        dirs := RemoveFirst(dirs, subdirs[i]);
      }
    }
  }

  lemma {:induction false} PrunedByDirs(path: Path, es: seq<Entry>, excludes: seq<string>, p: FilePath)
    ensures p in PrunedIn(path, es, excludes) <==>
            exists d :: d in es && !Excluded(excludes, path + [d.name])
                        && p in Pruned(path + [d.name], d.node, excludes)
    decreases |es|
  {
    if es != [] {
      PrunedByDirs(path, es[..|es| - 1], excludes, p);
      assert es == es[..|es| - 1] + [es[|es| - 1]];
    }
  }

  /** One listing of `os.walk`: the subdirectories and the files. */
  method ListHere(path: Path, es: seq<Entry>) returns (subdirs: seq<Entry>, files: seq<FilePath>)
    ensures forall d :: d in subdirs <==> d in es && d.node.Dir?
    ensures forall p :: p in files <==> p in FilesHere(path, es)
  {
    subdirs, files := [], [];
    for i := 0 to |es|
      invariant forall d :: d in subdirs <==> d in es[..i] && d.node.Dir?
      invariant forall p :: p in files <==> p in FilesHere(path, es[..i])
    {
      assert es[..i + 1] == es[..i] + [es[i]];
      if es[i].node.Dir? { subdirs := subdirs + [es[i]]; }
      if es[i].node.File? { files := files + [FilePath(path, es[i].name)]; }
    }
    assert es[..|es|] == es;
  }

  /** The walk, its consumer pruning every directory it is shown. */
  method WalkPruned(path: Path, node: Node, excludes: seq<string>) returns (files: seq<FilePath>)
    ensures forall p :: p in files <==> p in Pruned(path, node, excludes)
    decreases node, 1
  {
    if !Lists(node) { return []; }
    var subdirs, here := ListHere(path, node.entries);
    var dirs := Prune(path, subdirs, excludes);
    forall d ensures d in dirs <==> d in node.entries && d.node.Dir? && !Excluded(excludes, path + [d.name]) {
      NotExcludedIn(path, subdirs, excludes, d);
    }
    hide Excluded, NotExcluded, FilesHere;
    var below := WalkDirs(path, node, dirs, excludes);
    files := here + below;
    forall p ensures p in files <==> p in Pruned(path, node, excludes) {
      PrunedByDirs(path, node.entries, excludes, p);
      FromDirs(path, node.entries, dirs, excludes, p);
    }
  }

  /** A file below one of the directories. */
  ghost predicate InDirs(path: Path, dirs: seq<Entry>, excludes: seq<string>, p: FilePath) {
    exists d :: d in dirs && p in Pruned(path + [d.name], d.node, excludes)
  }

  lemma FromDirs(path: Path, es: seq<Entry>, dirs: seq<Entry>, excludes: seq<string>, p: FilePath)
    requires forall d :: d in dirs <==> d in es && d.node.Dir? && !Excluded(excludes, path + [d.name])
    ensures InDirs(path, dirs, excludes, p) <==>
            exists d :: d in es && !Excluded(excludes, path + [d.name])
                        && p in Pruned(path + [d.name], d.node, excludes)
  {
    hide Excluded;
    if d :| d in es && !Excluded(excludes, path + [d.name]) && p in Pruned(path + [d.name], d.node, excludes) {
      assert d in dirs;
    }
  }

  method WalkDirs(path: Path, node: Node, dirs: seq<Entry>, excludes: seq<string>) returns (files: seq<FilePath>)
    requires node.Dir? && forall d <- dirs :: d in node.entries
    ensures forall p :: p in files <==> InDirs(path, dirs, excludes, p)
    decreases node, 0
  {
    files := [];
    hide Pruned;
    for i := 0 to |dirs|
      invariant forall p :: p in files <==> InDirs(path, dirs[..i], excludes, p)
    {
      assert dirs[i] in node.entries;
      var below := WalkPruned(path + [dirs[i].name], dirs[i].node, excludes);
      files := files + below;
      assert dirs[..i + 1] == dirs[..i] + [dirs[i]];
    }
    assert dirs[..|dirs|] == dirs;
  }

  /** What the walk keeps: the files right in the root, and those whose directory, as a
      text, begins with none of the excluded paths. */
  lemma KeptExactly(path: Path, node: Node, excludes: seq<string>, p: FilePath)
    ensures Kept(path, node, excludes, p) <==>
            && p in Listed(Preorder(path, node, true))
            && (p.dir == path || forall i :: 0 <= i < |excludes| ==> !(excludes[i] <= PathText(p.dir)))
  {
    hide Listed, Preorder, PathText;
  }

  // ----- the map -----

  function Norm(digest: string): string { Lower(Strip(digest)) }

  predicate NonEmpty(disk: Disk, p: FilePath) { disk.size(p).Some? && disk.size(p).value != 0 }

  /** A file that can be hashed and is filed under `key`. */
  predicate Hashed(disk: Disk, p: FilePath, key: string) {
    && NonEmpty(disk, p)
    && disk.digest(p).Some? && disk.digest(p).value != "" && Norm(disk.digest(p).value) == key
  }

  /** Without outer white space, the two texts are the same up to the case of ASCII
      letters. */
  ghost predicate SameDigest(s: string, t: string) {
    exists i: nat, j: nat, k: nat, l: nat :: Core(s, i, j) && Core(t, k, l) && SameLetters(s[i..j], t[k..l])
  }

  ghost predicate SameLetters(s: string, t: string) {
    |s| == |t| && forall n :: 0 <= n < |s| ==> SameLetter(s[n], t[n])
  }

  /** Digests come under one key exactly if they are the same in this sense. */
  lemma NormSame(s: string, t: string)
    ensures Norm(s) == Norm(t) <==> SameDigest(s, t)
  {
    var i, j := StripCore(s);
    var k, l := StripCore(t);
    hide IsSpace, Strip, Lower, SameLetter;
    LowerSame(s[i..j], t[k..l]);
    if SameDigest(s, t) {
      var i': nat, j': nat, k': nat, l': nat :|
        Core(s, i', j') && Core(t, k', l') && SameLetters(s[i'..j'], t[k'..l']);
      CoreStrip(s, i', j');
      CoreStrip(t, k', l');
    }
  }

  /** A file of a size other than 0 with a digest that is the one asked for. */
  ghost predicate HasDigest(disk: Disk, p: FilePath, md5: string) {
    && disk.size(p).Some? && disk.size(p).value != 0
    && disk.digest(p).Some? && disk.digest(p).value != "" && SameDigest(disk.digest(p).value, md5)
  }

  lemma HashedExactly(disk: Disk, p: FilePath, md5: string)
    ensures Hashed(disk, p, Norm(md5)) <==> HasDigest(disk, p, md5)
  {
    hide Norm, SameDigest;
    if disk.digest(p).Some? { NormSame(disk.digest(p).value, md5); }
  }

  /** A key has no outer white space and no capital letter. */
  ghost predicate IsKey(key: string) { Core(key, 0, |key|) && forall c <- key :: !('A' <= c <= 'Z') }

  lemma NormIsKey(digest: string)
    ensures IsKey(Norm(digest))
    ensures IsKey(digest) ==> Norm(digest) == digest
  {
    var i, j := StripCore(digest);
    var core, key := digest[i..j], Norm(digest);
    assert |key| == |core| && forall k :: 0 <= k < |key| && IsSpace(key[k]) ==> IsSpace(core[k]);
    if IsKey(digest) {
      CoreStrip(digest, 0, |digest|);
      assert digest[0..|digest|] == digest;
      hide Strip, IsSpace;
      assert forall k :: 0 <= k < |digest| ==> digest[k] in digest;
      assert Lower(digest) == digest;
    }
  }

  /** What a file is filed under. */
  lemma FiledExactly(disk: Disk, p: FilePath, key: string)
    ensures Hashed(disk, p, key) <==> IsKey(key) && HasDigest(disk, p, key)
  {
    HashedExactly(disk, p, key);
    NormIsKey(key);
    if disk.digest(p).Some? { NormIsKey(disk.digest(p).value); }
    hide Norm, IsKey, HasDigest;
  }

  predicate Under(m: Md5s, key: string, p: FilePath) { key in m && p in m[key] }

  /** The map files exactly `files`, each under its digest. */
  ghost predicate MapOf(m: Md5s, disk: Disk, files: iset<FilePath>) {
    forall key, p :: Under(m, key, p) <==> p in files && Hashed(disk, p, key)
  }

  function Add(m: Md5s, key: string, p: FilePath): Md5s { m[key := (if key in m then m[key] else []) + [p]] }

  lemma AddUnder(m: Md5s, key: string, p: FilePath, k: string, x: FilePath)
    ensures Under(Add(m, key, p), k, x) <==> Under(m, k, x) || (k == key && x == p)
  {}

  /** Files one more result, or nothing. */
  method AddFile(m: Md5s, disk: Disk, p: FilePath) returns (next: Md5s)
    requires NonEmpty(disk, p)
    ensures forall key, x :: Under(next, key, x) <==> Under(m, key, x) || (x == p && Hashed(disk, x, key))
  {
    next := m;
    var md5 := disk.digest(p);
    hide Norm, Add, Under;
    if md5.Some? && md5.value != "" {
      var key := Norm(md5.value);
      next := Add(m, key, p);
      forall k, x ensures Under(next, k, x) <==> Under(m, k, x) || (x == p && Hashed(disk, x, k)) {
        AddUnder(m, key, p, k, x);
      }
    }
  }

  /** Hashing in parallel: results come in any order, and something may fail on
      the way, which is then reported. Nothing is filed that should not be. */
  method Parallel(files: seq<FilePath>, disk: Disk) returns (m: Md5s, failed: bool)
    ensures forall key, p :: Under(m, key, p) ==> p in files && Hashed(disk, p, key)
    ensures !failed ==> forall key, p :: p in files && Hashed(disk, p, key) ==> Under(m, key, p)
  {
    hide Norm, Under;
    m := map[];
    NothingUnder();
    var futures: set<FilePath> := {};
    for i := 0 to |files|
      invariant forall p :: p in futures <==> p in files[..i] && NonEmpty(disk, p)
    {
      assert files[..i + 1] == files[..i] + [files[i]];
      if NonEmpty(disk, files[i]) { futures := futures + {files[i]}; }
    }
    assert files[..|files|] == files;
    failed := *;
    ghost var submitted := futures;
    while !failed && futures != {}
      invariant futures <= submitted
      invariant forall key, p :: Under(m, key, p) <==> p in submitted && p !in futures && Hashed(disk, p, key)
      decreases |futures|
    {
      var p: FilePath :| p in futures;
      m := AddFile(m, disk, p);
      futures := futures - {p};
      failed := *;
    }
  }

  /** `build_intermediate_md5_map`. A failure part-way starts the serial pass, on
      top of what there is already. */
  method BuildIntermediateMd5Map(top: Path, tree: Node, excludes: seq<string>, disk: Disk) returns (m: Md5s)
    ensures MapOf(m, disk, iset p | Kept(top, tree, excludes, p))
    ensures forall key, p :: Under(m, key, p) <==> Kept(top, tree, excludes, p) && IsKey(key) && HasDigest(disk, p, key)
  {
    var files := WalkPruned(top, tree, excludes);
    var failed: bool;
    hide Norm, Under, Kept, IsKey, HasDigest;
    forall p, key ensures Hashed(disk, p, key) <==> IsKey(key) && HasDigest(disk, p, key) {
      FiledExactly(disk, p, key);
    }
    m, failed := Parallel(files, disk);
    forall p ensures p in files <==> Kept(top, tree, excludes, p) { PruneIsFilter(top, tree, excludes, p); }
    if failed {
      files := WalkPruned(top, tree, excludes);
      for i := 0 to |files|
        invariant forall key, p :: Under(m, key, p) ==> p in files && Hashed(disk, p, key)
        invariant forall key, p :: p in files[..i] && Hashed(disk, p, key) ==> Under(m, key, p)
      {
        if NonEmpty(disk, files[i]) { m := AddFile(m, disk, files[i]); }
      }
      forall p ensures p in files <==> Kept(top, tree, excludes, p) { PruneIsFilter(top, tree, excludes, p); }
    }
  }

  /** `combined_md5_map[md5_key].extend(paths_list)` for all keys of one map. */
  method Join(m: Md5s, partial: Md5s) returns (next: Md5s)
    ensures forall key, p :: Under(next, key, p) <==> Under(m, key, p) || Under(partial, key, p)
  {
    next := m;
    var keys := partial.Keys;
    while keys != {}
      invariant keys <= partial.Keys
      invariant forall key, p :: Under(next, key, p) <==> Under(m, key, p) || (key !in keys && Under(partial, key, p))
    {
      var key: string :| key in keys;
      next := next[key := (if key in next then next[key] else []) + partial[key]];
      keys := keys - {key};
    }
  }

  /** Files that a result covers. */
  ghost predicate Covered(partials: seq<Option<Md5s>>, files: seq<iset<FilePath>>, p: FilePath) {
    exists i :: 0 <= i < |partials| && i < |files| && partials[i].Some? && p in files[i]
  }

  /** The maps of several roots are joined in the order in which they arrive; one
      whose process failed is left out. */
  method Combine(partials: seq<Option<Md5s>>, disk: Disk, ghost files: seq<iset<FilePath>>) returns (m: Md5s)
    requires |files| == |partials|
    requires forall i :: 0 <= i < |partials| && partials[i].Some? ==> MapOf(partials[i].value, disk, files[i])
    ensures MapOf(m, disk, iset p | Covered(partials, files, p))
  {
    m := map[];
    var waiting: set<int> := {};
    for i := 0 to |partials|
      invariant forall j :: j in waiting <==> 0 <= j < i
    {
      waiting := waiting + {i};
    }
    hide Under;
    assert forall key, p :: !Under(map[], key, p) by { NothingUnder(); }
    while waiting != {}
      invariant forall i :: i in waiting ==> 0 <= i < |partials|
      invariant forall key, p :: Under(m, key, p) <==>
        exists i :: 0 <= i < |partials| && i !in waiting && partials[i].Some? && Under(partials[i].value, key, p)
    {
      var i: int :| i in waiting;
      if partials[i].Some? { m := Join(m, partials[i].value); }
      waiting := waiting - {i};
    }
    hide Hashed;
    forall key, p ensures Under(m, key, p) <==> Covered(partials, files, p) && Hashed(disk, p, key) {
      if i :| 0 <= i < |partials| && i < |files| && partials[i].Some? && p in files[i] && Hashed(disk, p, key) {
        assert Under(partials[i].value, key, p);
      }
    }
  }

  lemma NothingUnder()
    ensures forall key, p :: !Under(map[], key, p)
  {}

  /** `find_intermediate_file`: what the fallback without a map returns is empty;
      from a map come exactly its files with that digest. */
  method FindIntermediateFile(m: Option<Md5s>, md5: string, disk: Disk, ghost files: iset<FilePath>)
    returns (found: seq<FilePath>)
    requires m.Some? ==> MapOf(m.value, disk, files)
    ensures forall p :: p in found <==> m.Some? && p in files && HasDigest(disk, p, md5)
  {
    hide Norm, HasDigest;
    forall p ensures Hashed(disk, p, Norm(md5)) <==> HasDigest(disk, p, md5) { HashedExactly(disk, p, md5); }
    found := [];
    if m.Some? && m.value != map[] {
      var target := Norm(md5);
      if target in m.value { found := m.value[target]; }
      assert forall p :: p in found <==> Under(m.value, target, p);
    } else if m.Some? {
      assert forall p :: !Under(m.value, Norm(md5), p);
    }
  }
}
