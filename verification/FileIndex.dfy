/** aosp_post_build_injector.py: the basename index over the build objects, and the
    search that uses it, or a full walk when there is none. */
module FileIndex {
  import opened DirectoryWalk
  import opened Options
  import opened Text

  type Index = map<string, seq<FilePath>>

  // ----- text rules -----

  function RemoveAll(s: string, w: string): string { ReplaceAll(s, w, "") }

  /** `os.path.splitext` of a name, as the length of its root: the last dot splits,
      unless only dots come before it. */
  function RootLength(name: string): (n: nat)
    ensures n <= |name|
  {
    DotBefore(name, |name|)
  }

  function DotBefore(name: string, end: nat): (n: nat)
    requires end <= |name|
    ensures n <= |name|
  {
    if end == 0 then |name|
    else if name[end - 1] != '.' then DotBefore(name, end - 1)
    else if exists i :: 0 <= i < end && name[i] != '.' then end - 1
    else |name|
  }

  function Root(name: string): string { name[..RootLength(name)] }

  function Ext(name: string): string { name[RootLength(name)..] }

  // ----- queries -----

  /** The arguments of a search. Whether a candidate is compatible (architecture,
      module type) is up to `compatible`. */
  datatype Query = Query(partition: string, moduleType: string, filePath: string, fileName: string,
                         replaceIntermediate: string, exact: bool, mustContain: string, allowApex: bool,
                         compatible: FilePath -> bool)

  function Partition(q: Query): string { if q.partition in ["super", "system"] then "" else q.partition }

  /** Module types for which all of obj is walked; the empty one adds nothing to
      the path. */
  predicate OverObj(moduleType: string) { moduleType in ["", "MISC", "STATIC_CONFIG"] }

  predicate WholeObj(q: Query) { OverObj(q.moduleType) }

  /** The last directory of a path without the suffix `r` of intermediate directories
      and the name `part` of a partition. */
  function ModuleOf(root: string, r: string, part: string): string {
    BaseName(RemoveAll(RemoveAll(RemoveAll(root, r), "_" + part), "v1_prebuilt"))
  }

  /** The directory name that is compared with the module name. */
  function Stripped(q: Query, root: string): string { ModuleOf(root, q.replaceIntermediate, Partition(q)) }

  predicate SameExt(q: Query, name: string) {
    || Strip(Lower(Ext(q.fileName))) == Strip(Lower(Ext(name)))
    || (q.allowApex && ((Ext(q.fileName) == ".apex" && Ext(name) == ".capex")
                        || (Ext(q.fileName) == ".capex" && Ext(name) == ".apex")))
  }

  /** The body of the search loop, given the stripped directory name. */
  predicate Matches(q: Query, p: FilePath, stripped: string) {
    && !(Contains(Full(p), "vndk") && !Contains(q.filePath, "vndk"))
    && !(Contains(Full(p), "ndk") && !Contains(q.filePath, "ndk"))
    && q.compatible(p)
    && if p.name == q.fileName then
         && (Partition(q) == "" || Contains(PathText(p.dir), Partition(q)))
         && !(Contains(Full(p), "com.android") && !Contains(q.filePath, "com.android"))
       else
         Root(q.fileName) == stripped && Contains(PathText(p.dir), Partition(q)) && SameExt(q, p.name)
  }

  /** The two filters at the end. */
  predicate Survives(q: Query, p: FilePath) {
    !Contains(Full(p), "/obj/FAKE/") && Contains(Full(p), q.mustContain)
  }

  predicate Accepts(q: Query, p: FilePath) { Matches(q, p, Stripped(q, PathText(p.dir))) && Survives(q, p) }

  // ----- the rules, one by one -----

  /** Where `os.path.splitext` cuts a name, told from its dots: at the last one if
      something other than dots comes before it, and else at the end. */
  ghost predicate CutAt(name: string, n: nat) {
    && n <= |name|
    && if n == |name| then forall i, j :: 0 <= i < j < |name| && name[j] == '.' ==> name[i] == '.'
       else && name[n] == '.' && (forall k :: n < k < |name| ==> name[k] != '.')
            && exists i :: 0 <= i < n && name[i] != '.'
  }

  ghost predicate Splits(name: string, stem: string, ext: string) { name == stem + ext && CutAt(name, |stem|) }

  lemma {:induction false} DotBeforeCuts(name: string, end: nat)
    requires end <= |name| && forall k :: end <= k < |name| ==> name[k] != '.'
    ensures CutAt(name, DotBefore(name, end))
    decreases end
  {
    if end > 0 && name[end - 1] != '.' {
      DotBeforeCuts(name, end - 1);
    } else if i :| 0 <= i < end && name[i] != '.' {
      assert i < end - 1;
    }
  }

  lemma CutOnce(name: string, n: nat, m: nat)
    requires CutAt(name, n) && CutAt(name, m)
    ensures n == m
  {}

  lemma SplitsExactly(name: string, stem: string, ext: string)
    ensures Splits(name, stem, ext) <==> stem == Root(name) && ext == Ext(name)
  {
    var n := RootLength(name);
    DotBeforeCuts(name, |name|);
    hide RootLength;
    assert name == name[..n] + name[n..];
    if Splits(name, stem, ext) {
      CutOnce(name, n, |stem|);
      hide CutAt;
      assert name[..n] == stem && name[n..] == ext;
    }
  }

  /** A file from vndk or ndk directories serves only a file that is from there. */
  ghost predicate NdkRules(q: Query, p: FilePath) {
    && (Contains(Full(p), "vndk") ==> Contains(q.filePath, "vndk"))
    && (Contains(Full(p), "ndk") ==> Contains(q.filePath, "ndk"))
  }

  /** A file of the name searched for lies under the partition, if there is one but
      the default ones, and one from com.android serves only a file from there. */
  ghost predicate NameRules(q: Query, p: FilePath) {
    && (q.partition == "" || q.partition == "super" || q.partition == "system"
        || Contains(PathText(p.dir), q.partition))
    && (Contains(Full(p), "com.android") ==> Contains(q.filePath, "com.android"))
  }

  /** A file of another name lies under the partition, in the directory of the module
      that the name stands for, and has its extension. */
  ghost predicate ModuleRules(q: Query, p: FilePath) {
    var part := if q.partition == "super" || q.partition == "system" then "" else q.partition;
    && Contains(PathText(p.dir), part)
    && (exists stem, ext :: Splits(q.fileName, stem, ext) && ExtensionRule(q, ext, p.name)
          && stem == BaseName(ReplaceAll(ReplaceAll(ReplaceAll(PathText(p.dir), q.replaceIntermediate, ""),
                                                    "_" + part, ""), "v1_prebuilt", "")))
  }

  ghost predicate ExtensionRule(q: Query, ext: string, name: string) {
    exists stem, own :: Splits(name, stem, own)
      && (|| Strip(Lower(own)) == Strip(Lower(ext))
          || (q.allowApex && own == ".apex" && ext == ".capex")
          || (q.allowApex && own == ".capex" && ext == ".apex"))
  }

  /** What is returned is compatible, not under FAKE and contains what it has to. */
  ghost predicate ResultRules(q: Query, p: FilePath) {
    q.compatible(p) && !Contains(Full(p), "/obj/FAKE/") && Contains(Full(p), q.mustContain)
  }

  ghost predicate MeetsRules(q: Query, p: FilePath) {
    && NdkRules(q, p)
    && (p.name == q.fileName ==> NameRules(q, p))
    && (p.name != q.fileName ==> ModuleRules(q, p))
    && ResultRules(q, p)
  }

  lemma SameExtRule(q: Query, name: string)
    ensures SameExt(q, name) <==> ExtensionRule(q, Ext(q.fileName), name)
  {
    SplitsExactly(name, Root(name), Ext(name));
    hide Strip, Lower, Root, Ext;
    if ExtensionRule(q, Ext(q.fileName), name) {
      var stem, own :| Splits(name, stem, own)
        && (|| Strip(Lower(own)) == Strip(Lower(Ext(q.fileName)))
            || (q.allowApex && own == ".apex" && Ext(q.fileName) == ".capex")
            || (q.allowApex && own == ".capex" && Ext(q.fileName) == ".apex"));
      SplitsExactly(name, stem, own);
    }
    hide Splits;
  }

  lemma ModuleRulesExactly(q: Query, p: FilePath)
    ensures ModuleRules(q, p) <==>
            && Root(q.fileName) == Stripped(q, PathText(p.dir)) && Contains(PathText(p.dir), Partition(q))
            && SameExt(q, p.name)
  {
    SameExtRule(q, p.name);
    SplitsExactly(q.fileName, Root(q.fileName), Ext(q.fileName));
    hide SameExt, ExtensionRule, Contains, PathText, BaseName, ReplaceAll, Root, Ext;
    if ModuleRules(q, p) {
      var stem, ext :| Splits(q.fileName, stem, ext) && ExtensionRule(q, ext, p.name)
        && stem == Stripped(q, PathText(p.dir));
      SplitsExactly(q.fileName, stem, ext);
    }
    hide Splits;
  }

  /** The search loop with the filters behind it keeps exactly these rules. */
  lemma RulesExactly(q: Query, p: FilePath)
    ensures Accepts(q, p) <==> MeetsRules(q, p)
  {
    ModuleRulesExactly(q, p);
    hide ModuleRules, Stripped, SameExt, Contains, PathText, Full, Root;
  }

  // ----- what a search returns, for a set of listed files -----

  ghost predicate Named(files: set<FilePath>, name: string) { exists p :: p in files && p.name == name }

  ghost predicate ByIndex(q: Query, files: set<FilePath>, p: FilePath) {
    && p in files && Accepts(q, p)
    && if Named(files, q.fileName) then p.name == q.fileName else q.exact && Ext(p.name) == Ext(q.fileName)
  }

  ghost predicate ByWalk(q: Query, files: set<FilePath>, p: FilePath) {
    && p in files && Accepts(q, p)
    && (q.exact ==> if Named(files, q.fileName) then p.name == q.fileName else Ext(p.name) == Ext(q.fileName))
  }

  /** The index of a set of listed files. */
  ghost predicate IsIndex(idx: Index, files: set<FilePath>) {
    && (forall p :: p in files <==> p.name in idx && p in idx[p.name])
    && forall name, p :: name in idx && p in idx[name] ==> p.name == name
  }

  function ObjPath(out: Path): Path { out + ["obj"] }

  /** What `get_all_files` lists for a query. */
  function Walked(q: Query, out: Path, obj: Option<Node>): set<FilePath> {
    if obj.None? then {}
    else if WholeObj(q) then Listed(Preorder(ObjPath(out), obj.value, true))
    else match At(obj.value, [q.moduleType])
         case None => {}
         case Some(folder) => Listed(Preorder(ObjPath(out) + [q.moduleType], folder, true))
  }

  /** The files that are walked, told from the tree: those below `obj`, or below the
      folder of the module type unless that is `MISC`, `STATIC_CONFIG` or empty. */
  lemma WalkedExactly(q: Query, out: Path, obj: Node, p: FilePath)
    requires WellNamed(obj)
    ensures var rest := if q.moduleType == "" || q.moduleType == "MISC" || q.moduleType == "STATIC_CONFIG" then []
                        else [q.moduleType];
            p in Walked(q, out, Some(obj)) <==>
            && out + ["obj"] + rest <= p.dir
            && var at := At(obj, p.dir[|out| + 1..] + [p.name]);
               at.Some? && at.value.File?
  {
    var whole := q.moduleType == "" || q.moduleType == "MISC" || q.moduleType == "STATIC_CONFIG";
    assert WholeObj(q) <==> whole;
    if whole {
      WalkExactly(ObjPath(out), obj, true, p);
      assert out + ["obj"] + [] == ObjPath(out);
    } else {
      FolderWalked(out, obj, q.moduleType, p);
    }
    hide Listed, Preorder, At;
  }

  lemma FolderWalked(out: Path, obj: Node, folder: string, p: FilePath)
    requires WellNamed(obj)
    ensures var there := At(obj, [folder]);
            (there.Some? && p in Listed(Preorder(ObjPath(out) + [folder], there.value, true))) <==>
            && out + ["obj"] + [folder] <= p.dir
            && var at := At(obj, p.dir[|out| + 1..] + [p.name]);
               at.Some? && at.value.File?
  {
    var there, top := At(obj, [folder]), ObjPath(out) + [folder];
    assert [folder][1..] == [];
    if there.Some? {
      NamedBelow(obj, folder);
      WalkExactly(top, there.value, true, p);
    }
    if top <= p.dir {
      var rest := p.dir[|top|..] + [p.name];
      assert p.dir[|out| + 1..] + [p.name] == [folder] + rest;
      AtBelow(obj, folder, rest);
    }
    hide Listed, Preorder;
  }

  lemma AtBelow(node: Node, name: string, rest: Path)
    ensures At(node, [name] + rest)
         == match At(node, [name]) case None => None case Some(child) => At(child, rest)
  {
    assert ([name] + rest)[1..] == rest && [name][1..] == [];
    hide Find;
  }

  lemma NamedBelow(obj: Node, folder: string)
    requires WellNamed(obj) && At(obj, [folder]).Some?
    ensures WellNamed(At(obj, [folder]).value)
  {
    assert [folder][1..] == [];
    FindIn(obj.entries, folder);
  }

  lemma {:induction false} FindIn(es: seq<Entry>, name: string)
    requires Find(es, name).Some?
    ensures exists e :: e in es && e.name == name && e.node == Find(es, name).value
    decreases |es|
  {
    var n := |es| - 1;
    if es[n].name != name {
      FindIn(es[..n], name);
    } else {
      assert es[n] in es;
    }
  }

  /** What the index is built from. */
  function Indexed(out: Path, obj: Option<Node>): set<FilePath> {
    if obj.None? then {} else Listed(Backward(ObjPath(out), obj.value))
  }

  // ----- the procedures -----

  method AddVisit(idx: Index, visit: Visit, ghost files: set<FilePath>) returns (next: Index)
    requires IsIndex(idx, files)
    ensures IsIndex(next, files + Listed([visit]))
  {
    next := idx;
    for i := 0 to |visit.files|
      invariant IsIndex(next, files + set f | f in visit.files[..i] :: FilePath(visit.path, f))
    {
      var f := visit.files[i];
      next := next[f := (if f in next then next[f] else []) + [FilePath(visit.path, f)]];
      assert forall x :: x in visit.files[..i + 1] <==> x in visit.files[..i] || x == f;
    }
    assert Listed([visit]) == set f | f in visit.files[..|visit.files|] :: FilePath(visit.path, f);
  }

  /** `build_intermediate_file_index`, the part that fills `FILE_INDEX_CACHE`. */
  method BuildIndex(out: Path, obj: Option<Node>) returns (idx: Index)
    ensures IsIndex(idx, Indexed(out, obj))
  {
    idx := map[];
    if obj.Some? {
      var visits := ScandirWalk(ObjPath(out), obj.value);
      for i := 0 to |visits|
        invariant IsIndex(idx, Listed(visits[..i]))
      {
        idx := AddVisit(idx, visits[i], Listed(visits[..i]));
        ListedAdd(visits[..i], [visits[i]]);
        assert visits[..i + 1] == visits[..i] + [visits[i]];
      }
      assert visits[..|visits|] == visits;
    }
  }

  /** `get_all_files` */
  method GetAllFiles(top: Path, tree: Node) returns (files: seq<FilePath>)
    ensures forall p :: p in files <==> p in Listed(Preorder(top, tree, true))
  {
    files := [];
    var visits := Preorder(top, tree, true);
    for i := 0 to |visits|
      invariant forall p :: p in files <==> p in Listed(visits[..i])
    {
      for j := 0 to |visits[i].files|
        invariant forall p :: p in files <==>
                    p in Listed(visits[..i]) || (p.dir == visits[i].path && p.name in visits[i].files[..j])
      {
        files := files + [FilePath(visits[i].path, visits[i].files[j])];
      }
      ListedAdd(visits[..i], [visits[i]]);
      assert visits[..i + 1] == visits[..i] + [visits[i]];
      assert visits[i].files[..|visits[i].files|] == visits[i].files;
      assert forall p :: p in Listed([visits[i]]) <==> p.dir == visits[i].path && p.name in visits[i].files;
    }
    assert visits[..|visits|] == visits;
  }

  /** Candidates of one set of listed files, before the search loop. */
  ghost predicate Offered(q: Query, files: set<FilePath>, p: FilePath) {
    p in files && if Named(files, q.fileName) then p.name == q.fileName else Ext(p.name) == Ext(q.fileName)
  }

  lemma IndexAt(idx: Index, files: set<FilePath>, name: string)
    requires IsIndex(idx, files)
    ensures forall p :: (name in idx && p in idx[name]) <==> p in files && p.name == name
  {}

  method IndexCandidates(q: Query, idx: Index, ghost files: set<FilePath>) returns (cs: seq<FilePath>)
    requires IsIndex(idx, files)
    ensures forall p :: p in cs <==> Offered(q, files, p) && (q.exact || p.name == q.fileName)
  {
    hide Ext;
    cs := if q.fileName in idx then idx[q.fileName] else [];
    IndexAt(idx, files, q.fileName);
    if cs != [] {
      var first := cs[0];
      assert first in cs && first.name == q.fileName && first in files;
    }
    assert Named(files, q.fileName) <==> cs != [];
    assert forall p :: p in files ==> p.name in idx.Keys;
    if q.exact && cs == [] {
      var ext, names := Ext(q.fileName), idx.Keys;
      while names != {}
        invariant names <= idx.Keys
        invariant forall p :: p in cs <==> p in files && p.name !in names && Ext(p.name) == ext
      {
        var name: string :| name in names;
        var paths := idx[name];
        ghost var before := cs;
        IndexAt(idx, files, name);
        hide IsIndex;
        for i := 0 to |paths|
          invariant forall p :: p in cs <==> p in before || (p in paths[..i] && Ext(p.name) == ext)
        {
          if Ext(paths[i].name) == ext { cs := cs + [paths[i]]; }
        }
        assert paths[..|paths|] == paths;
        names := names - {name};
      }
    }
  }

  /** With exact names the walk drops incompatible candidates early. */
  method WalkCandidates(q: Query, all: seq<FilePath>, ghost files: set<FilePath>) returns (cs: seq<FilePath>)
    requires forall p :: p in all <==> p in files
    ensures forall p :: p in cs && q.compatible(p) <==>
              p in files && q.compatible(p) && (q.exact ==> Offered(q, files, p))
  {
    if !q.exact { return all; }
    var matches: seq<FilePath>, extended: seq<FilePath>, found := [], [], false;
    for i := 0 to |all|
      invariant found <==> exists j :: 0 <= j < i && all[j].name == q.fileName
      invariant forall p :: p in matches <==> p in all[..i] && p.name == q.fileName && q.compatible(p)
      invariant forall p :: p in extended <==> p in all[..i] && Ext(p.name) == Ext(q.fileName)
    {
      if all[i].name == q.fileName {
        found := true;
        if q.compatible(all[i]) { matches := matches + [all[i]]; }
      }
      if Ext(all[i].name) == Ext(q.fileName) { extended := extended + [all[i]]; }
    }
    assert all[..|all|] == all;
    assert found <==> Named(files, q.fileName);
    cs := if found then matches else extended;
  }

  /** The search loop: directory names are stripped once per directory. */
  method Match(q: Query, candidates: seq<FilePath>) returns (found: seq<FilePath>)
    ensures forall p :: p in found <==> p in candidates && Matches(q, p, Stripped(q, PathText(p.dir)))
  {
    hide Matches, Stripped, PathText;
    found := [];
    var rootCache: map<string, string> := map[];
    for i := 0 to |candidates|
      invariant forall root <- rootCache :: rootCache[root] == Stripped(q, root)
      invariant forall p :: p in found <==> p in candidates[..i] && Matches(q, p, Stripped(q, PathText(p.dir)))
    {
      var p := candidates[i];
      var root := PathText(p.dir);
      if root !in rootCache { rootCache := rootCache[root := Stripped(q, root)]; }
      if Matches(q, p, rootCache[root]) { found := found + [p]; }
    }
    assert candidates[..|candidates|] == candidates;
  }

  method Filter(q: Query, candidates: seq<FilePath>) returns (result: seq<FilePath>)
    ensures forall p :: p in result <==> p in candidates && Accepts(q, p)
  {
    hide Matches, Stripped, PathText, Survives;
    var found := Match(q, candidates);
    result := [];
    for i := 0 to |found|
      invariant forall p :: p in result <==> p in found[..i] && Survives(q, p)
    {
      if Survives(q, found[i]) { result := result + [found[i]]; }
    }
    assert found[..|found|] == found;
  }

  /** The candidates of a search among the files it looks at: those with the name or,
      if no file has it, with the extension; without exact names, an index gives only
      the former, and a walk gives every file. */
  ghost predicate Candidate(q: Query, files: set<FilePath>, indexed: bool, p: FilePath) {
    && p in files
    && if exists f :: f in files && f.name == q.fileName then p.name == q.fileName || (!q.exact && !indexed)
       else if q.exact then Ext(p.name) == Ext(q.fileName)
       else !indexed
  }

  lemma CandidatesExactly(q: Query, files: set<FilePath>, p: FilePath)
    ensures ByIndex(q, files, p) <==> Candidate(q, files, true, p) && MeetsRules(q, p)
    ensures ByWalk(q, files, p) <==> Candidate(q, files, false, p) && MeetsRules(q, p)
  {
    RulesExactly(q, p);
    hide Accepts, MeetsRules, Ext;
  }

  lemma ResultByRules(q: Query, files: set<FilePath>, indexed: bool, result: seq<FilePath>)
    requires forall p :: p in result <==> if indexed then ByIndex(q, files, p) else ByWalk(q, files, p)
    ensures forall p :: p in result <==> Candidate(q, files, indexed, p) && MeetsRules(q, p)
  {
    hide ByIndex, ByWalk, Candidate, MeetsRules;
    forall p ensures p in result <==> Candidate(q, files, indexed, p) && MeetsRules(q, p) {
      CandidatesExactly(q, files, p);
    }
  }

  /** `search_original_file_in_obj`; an empty result stands for None. What comes back
      are the candidates that meet the rules. */
  method SearchOriginalFileInObj(q: Query, out: Path, obj: Option<Node>, idx: Option<Index>,
                                 ghost files: set<FilePath>)
    returns (result: seq<FilePath>)
    requires idx.Some? ==> IsIndex(idx.value, files)
    ensures idx.Some? ==> forall p :: p in result <==> ByIndex(q, files, p)
    ensures idx.None? ==> forall p :: p in result <==> ByWalk(q, Walked(q, out, obj), p)
    ensures forall p :: p in result <==>
              Candidate(q, if idx.Some? then files else Walked(q, out, obj), idx.Some?, p) && MeetsRules(q, p)
  {
    var candidates: seq<FilePath>;
    if idx.Some? {
      candidates := IndexCandidates(q, idx.value, files);
      result := Filter(q, candidates);
    } else {
      var all: seq<FilePath> := [];
      if obj.Some? {
        if WholeObj(q) {
          all := GetAllFiles(ObjPath(out), obj.value);
        } else {
          var folder := At(obj.value, [q.moduleType]);
          if folder.Some? { all := GetAllFiles(ObjPath(out) + [q.moduleType], folder.value); }
        }
      }
      candidates := WalkCandidates(q, all, Walked(q, out, obj));
      result := Filter(q, candidates);
      assert forall p :: Accepts(q, p) ==> q.compatible(p);
    }
    ghost var there := if idx.Some? then files else Walked(q, out, obj);
    assert forall p :: p in result <==> if idx.Some? then ByIndex(q, there, p) else ByWalk(q, there, p);
    ResultByRules(q, there, idx.Some?, result);
  }

  // ----- index and walk agree -----

  /** The searches that go over the same directories with exact names. */
  predicate InScope(q: Query) { q.exact && WholeObj(q) }

  ghost predicate Agree(q: Query, out: Path, obj: Option<Node>) {
    forall p :: ByIndex(q, Indexed(out, obj), p) <==> ByWalk(q, Walked(q, out, obj), p)
  }

  lemma AgreeWithoutLinks(q: Query, out: Path, obj: Option<Node>)
    requires InScope(q) && (obj.Some? ==> WellNamed(obj.value) && forall p :: !IsLink(ObjPath(out), obj.value, p))
    ensures Agree(q, out, obj)
  {
    if obj.Some? {
      forall p ensures p in Indexed(out, obj) <==> p in Walked(q, out, obj) {
        ListingsDiffer(ObjPath(out), obj.value, p);
      }
    }
    assert Indexed(out, obj) == Walked(q, out, obj);
  }

  /** A search for which every candidate of that name matches. */
  function Probe(name: string): Query {
    Query("super", "MISC", "vndkcom.android", name, "", true, "", false, (p: FilePath) => true)
  }

  lemma ProbePath()
    ensures var f := "vndkcom.android"; Contains(f, "vndk") && Contains(f, "ndk") && Contains(f, "com.android")
    ensures forall s :: Contains(s, "")
  {
    var f := "vndkcom.android";
    assert f[0..4] == "vndk" && f[1..4] == "ndk" && f[4..15] == "com.android";
    ContainsAt(f, "vndk", 0);
    ContainsAt(f, "ndk", 1);
    ContainsAt(f, "com.android", 4);
    forall s ensures Contains(s, "") { ContainsAt(s, "", 0); }
  }

  lemma ProbeAccepts(p: FilePath)
    requires !Contains(Full(p), "/obj/FAKE/")
    ensures Accepts(Probe(p.name), p)
  {
    ProbePath();
    hide Contains, Full, Stripped, SameExt, PathText;
  }

  predicate UnderFake(p: FilePath) { Contains(Full(p), "/obj/FAKE/") }

  /** The path leads to the module's directory, without some piece of the path and
      some other piece that is no default partition. */
  ghost predicate InModuleDir(root: string, name: string) {
    exists r, part :: Contains(root, r) && Contains(root, part) && part !in ["super", "system"]
                      && name == ModuleOf(root, r, part)
  }

  /** Some search for that name returns the file. */
  ghost predicate Findable(name: string, p: FilePath) {
    exists q: Query :: InScope(q) && q.fileName == name && Accepts(q, p)
  }

  /** A search for a module with a directory suffix, in a partition. */
  function ModuleProbe(name: string, r: string, part: string): Query {
    Probe(name).(partition := part, replaceIntermediate := r)
  }

  lemma ModuleFound(name: string, p: FilePath, r: string, part: string)
    requires !UnderFake(p) && p.name != name && Ext(p.name) == Ext(name)
    requires part !in ["super", "system"] && Contains(PathText(p.dir), part)
    requires Root(name) == ModuleOf(PathText(p.dir), r, part)
    ensures Accepts(ModuleProbe(name, r, part), p)
  {
    ProbePath();
    hide Contains, Full, PathText, Ext, Root, BaseName, RemoveAll;
  }

  lemma FoundInModule(q: Query, p: FilePath)
    requires Accepts(q, p) && p.name != q.fileName
    ensures InModuleDir(PathText(p.dir), Root(q.fileName))
  {
    var root, part := PathText(p.dir), Partition(q);
    var r := if Contains(root, q.replaceIntermediate) then q.replaceIntermediate else "";
    ProbePath();
    if !Contains(root, q.replaceIntermediate) { NotReplaced(root, q.replaceIntermediate, ""); }
    assert RemoveAll(root, r) == RemoveAll(root, q.replaceIntermediate);
    hide Contains, Full, PathText, Root, BaseName, RemoveAll, SameExt;
    assert Root(q.fileName) == ModuleOf(root, r, part);
  }

  /** A file is found under another name exactly if it is not under FAKE and in the
      module's directory. */
  lemma FindableExactly(name: string, p: FilePath)
    requires Ext(p.name) == Ext(name)
    ensures Findable(name, p) <==> !UnderFake(p) && (p.name == name || InModuleDir(PathText(p.dir), Root(name)))
  {
    hide Matches, Contains, Full, PathText, Ext, Root, ModuleOf;
    if q: Query :| InScope(q) && q.fileName == name && Accepts(q, p) {
      if p.name != name { FoundInModule(q, p); }
    }
    if !UnderFake(p) && p.name == name {
      ProbeAccepts(p);
      assert InScope(Probe(name));
    } else if !UnderFake(p) && InModuleDir(PathText(p.dir), Root(name)) {
      var root := PathText(p.dir);
      var r, part :| Contains(root, r) && Contains(root, part) && part !in ["super", "system"]
                     && Root(name) == ModuleOf(root, r, part);
      ModuleFound(name, p, r, part);
      assert InScope(ModuleProbe(name, r, part));
    }
  }

  /** The name of a link keeps searches from falling back to files in the directory
      of the module that the link is named after. */
  ghost predicate Masks(l: FilePath, files: set<FilePath>) {
    && !Named(files, l.name)
    && exists p :: p in files && Ext(p.name) == Ext(l.name) && !UnderFake(p)
                   && InModuleDir(PathText(p.dir), Root(l.name))
  }

  lemma MasksFindable(l: FilePath, files: set<FilePath>)
    ensures Masks(l, files) <==>
            !Named(files, l.name) && exists p :: p in files && Ext(p.name) == Ext(l.name) && Findable(l.name, p)
  {
    hide Ext, Findable, UnderFake, InModuleDir, PathText, Root;
    forall p | p in files && Ext(p.name) == Ext(l.name)
      ensures Findable(l.name, p) <==>
              !UnderFake(p) && (p.name == l.name || InModuleDir(PathText(p.dir), Root(l.name)))
    {
      FindableExactly(l.name, p);
    }
  }

  /** When no link can be returned, index and walk differ exactly over a link that
      has the name searched for, while no file has and the fallback finds one. */
  lemma HiddenByLink(q: Query, files: set<FilePath>, links: set<FilePath>)
    requires q.exact && forall l <- links :: !Accepts(q, l)
    ensures (forall p :: ByIndex(q, files + links, p) <==> ByWalk(q, files, p)) <==>
            !(Named(links, q.fileName) && !Named(files, q.fileName)
              && exists p :: p in files && Accepts(q, p) && Ext(p.name) == Ext(q.fileName))
  {
    assert Named(files + links, q.fileName) <==> Named(files, q.fileName) || Named(links, q.fileName);
    if p :| p in files && Accepts(q, p) && Ext(p.name) == Ext(q.fileName) {
      if Named(links, q.fileName) && !Named(files, q.fileName) {
        assert ByWalk(q, files, p) && !ByIndex(q, files + links, p);
      }
    }
  }

  lemma LinkShows(out: Path, obj: Node, l: FilePath)
    requires WellNamed(obj) && IsLink(ObjPath(out), obj, l) && !UnderFake(l)
    ensures InScope(Probe(l.name)) && !Agree(Probe(l.name), out, Some(obj))
  {
    var q := Probe(l.name);
    ListingsDiffer(ObjPath(out), obj, l);
    ProbeAccepts(l);
    assert ByIndex(q, Indexed(out, Some(obj)), l) && !ByWalk(q, Walked(q, out, Some(obj)), l);
  }

  lemma LinkMasks(out: Path, obj: Node, l: FilePath, q: Query, p: FilePath)
    requires WellNamed(obj) && IsLink(ObjPath(out), obj, l) && InScope(q) && q.fileName == l.name && Accepts(q, p)
    requires var files := Listed(Preorder(ObjPath(out), obj, true));
             p in files && !Named(files, l.name) && Ext(p.name) == Ext(l.name)
    ensures !Agree(q, out, Some(obj))
  {
    ListingsDiffer(ObjPath(out), obj, l);
    assert ByWalk(q, Walked(q, out, Some(obj)), p) && !ByIndex(q, Indexed(out, Some(obj)), p);
  }

  lemma AgreeUnmasked(q: Query, out: Path, obj: Node)
    requires WellNamed(obj) && InScope(q)
    requires forall l :: IsLink(ObjPath(out), obj, l) ==>
               UnderFake(l) && !Masks(l, Listed(Preorder(ObjPath(out), obj, true)))
    ensures Agree(q, out, Some(obj))
  {
    var files, all := Listed(Preorder(ObjPath(out), obj, true)), Indexed(out, Some(obj));
    var links := all - files;
    forall p ensures p in all <==> p in files || IsLink(ObjPath(out), obj, p) { ListingsDiffer(ObjPath(out), obj, p); }
    assert all == files + links;
    hide IsLink, Listed, Preorder, Backward, Matches, Ext;
    HiddenByLink(q, files, links);
    forall l ensures Masks(l, files) <==>
      !Named(files, l.name) && exists p :: p in files && Ext(p.name) == Ext(l.name) && Findable(l.name, p)
    {
      MasksFindable(l, files);
    }
    hide Masks;
  }

  /** All searches with exact names over the whole of obj get the same files from
      the index and from the walk exactly if all links to directories are under
      FAKE, whose results are dropped, and none of them masks a file. */
  lemma IndexAgreesExactly(out: Path, obj: Node)
    requires WellNamed(obj)
    ensures (forall q | InScope(q) :: Agree(q, out, Some(obj))) <==>
            forall l :: IsLink(ObjPath(out), obj, l) ==>
              UnderFake(l) && !Masks(l, Listed(Preorder(ObjPath(out), obj, true)))
  {
    var files := Listed(Preorder(ObjPath(out), obj, true));
    hide Agree, IsLink, Listed, Preorder, Accepts, Probe, Ext, Masks, UnderFake;
    if l :| IsLink(ObjPath(out), obj, l) && !UnderFake(l) {
      LinkShows(out, obj, l);
    } else if l :| IsLink(ObjPath(out), obj, l) && Masks(l, files) {
      MasksFindable(l, files);
      var p :| p in files && Ext(p.name) == Ext(l.name) && Findable(l.name, p);
      var q: Query :| InScope(q) && q.fileName == l.name && Accepts(q, p);
      LinkMasks(out, obj, l, q, p);
    } else {
      forall q | InScope(q) ensures Agree(q, out, Some(obj)) { AgreeUnmasked(q, out, obj); }
    }
  }

  /** A directory with one entry leads nowhere else. */
  lemma OneEntry(name: string, child: Node, rel: Path)
    requires rel != []
    ensures At(Dir(true, [Entry(name, child)]), rel) == if rel[0] == name then At(child, rel[1..]) else None
    ensures |rel| == 1 ==> At(child, rel[1..]) == Some(child)
  {
    var es := [Entry(name, child)];
    assert es[..0] == [];
    assert Find(es, rel[0]) == if rel[0] == name then Some(child) else None;
  }

  /** For every other module type the two look into different directories. */
  lemma OtherModulesDiffer(moduleType: string, exact: bool)
    requires !OverObj(moduleType)
    ensures !Agree(Probe("f").(moduleType := moduleType, exact := exact), [], Some(Dir(true, [Entry("f", File)])))
  {
    var q := Probe("f").(moduleType := moduleType, exact := exact);
    var obj := Dir(true, [Entry("f", File)]);
    var p := FilePath(["obj"], "f");
    assert WellNamed(obj);
    OneEntry("f", File, [moduleType]);
    WalkExactly(["obj"], obj, false, p);
    WalkPermutes(["obj"], obj);
    SameListing(Backward(["obj"], obj), Preorder(["obj"], obj, false));
    assert p.dir[1..] + [p.name] == ["f"];
    assert |Full(p)| == 5;
    ProbeAccepts(p);
    assert Accepts(q, p);
    hide Accepts, Full, Ext, Contains;
    assert [] + ["obj"] == ["obj"];
    assert ByIndex(q, Indexed([], Some(obj)), p) && Walked(q, [], Some(obj)) == {};
  }

  lemma {:induction false} NothingRemoved(s: string, c: char)
    requires c !in s
    ensures RemoveAll(s, [c]) == s
    decreases |s|
  {
    if s != [] {
      assert s[..1] != [c] by { assert s[0] in s; }
      NothingRemoved(s[1..], c);
    }
  }

  lemma StrippedModule(q: Query)
    requires Partition(q) == "" && q.replaceIntermediate == ""
    ensures Stripped(q, "obj/m") == "m"
  {
    assert "_" + Partition(q) == ['_'];
    NothingRemoved("obj/m", '_');
    assert RemoveAll("obj/m", "v1_prebuilt") == "obj/m" by { assert |"v1_prebuilt"| == 11; }
    assert RemoveAll("obj/m", "") == "obj/m";
    hide RemoveAll, Partition;
    assert "obj/m"[..4] == "obj/" && BaseName("obj/") == "";
  }

  lemma ShortNames()
    ensures Root("m") == "m" && Ext("m") == "" && Ext("x") == "" && "x" != "m"
    ensures PathText(["obj", "m"]) == "obj/m"
  {
    assert RootLength("m") == 1 && RootLength("x") == 1;
    assert "x" != "m" by { assert "x"[0] != "m"[0]; }
    assert PathText(["obj"]) == "obj" && ["obj", "m"][..1] == ["obj"];
  }

  lemma ModuleName(q: Query)
    requires q == Probe("m").(moduleType := q.moduleType, exact := false)
    ensures Accepts(q, FilePath(["obj", "m"], "x"))
  {
    var p := FilePath(["obj", "m"], "x");
    ShortNames();
    StrippedModule(q);
    ProbePath();
    assert |Full(p)| == 7;
    hide Stripped, RootLength, Root, Ext, PathText, Full;
  }

  /** Without exact names the walk finds files by their module's directory, which
      the index never looks at. */
  lemma InexactDiffers(moduleType: string)
    requires OverObj(moduleType)
    ensures !Agree(Probe("m").(moduleType := moduleType, exact := false), [],
                   Some(Dir(true, [Entry("m", Dir(true, [Entry("x", File)]))])))
  {
    var q := Probe("m").(moduleType := moduleType, exact := false);
    var m := Dir(true, [Entry("x", File)]);
    var obj := Dir(true, [Entry("m", m)]);
    var p := FilePath(["obj", "m"], "x");
    InModule(p, obj);
    ModuleName(q);
    ShortNames();
    hide Accepts, Preorder, Backward, Listed, Ext, Root, PathText, OverObj;
    assert [] + ["obj"] == ["obj"];
    assert ByWalk(q, Walked(q, [], Some(obj)), p);
    assert !ByIndex(q, Indexed([], Some(obj)), p);
  }

  lemma InModule(p: FilePath, obj: Node)
    requires p == FilePath(["obj", "m"], "x") && obj == Dir(true, [Entry("m", Dir(true, [Entry("x", File)]))])
    ensures p in Listed(Preorder(["obj"], obj, true))
  {
    var m := Dir(true, [Entry("x", File)]);
    assert ["obj", "m"][1..] + ["x"] == ["m", "x"];
    assert ["m", "x"][1..] == ["x"] && ["x"][1..] == [];
    assert Find(obj.entries, "m") == Some(m) && Find(m.entries, "x") == Some(File);
    assert At(m, ["x"]) == At(File, []) && At(obj, ["m", "x"]) == At(m, ["x"]);
    assert WellNamed(m) && WellNamed(obj);
    WalkExactly(["obj"], obj, true, p);
    assert ["obj"] <= p.dir;
  }

  ghost predicate LinkFree(obj: Node) { WellNamed(obj) && forall top, p :: !IsLink(top, obj, p) }

  /** Searches of a kind get the same files from the index and from the walk, for
      all trees without links to directories. */
  ghost predicate KindAgrees(moduleType: string, exact: bool) {
    forall q: Query, out, obj :: q.moduleType == moduleType && q.exact == exact && LinkFree(obj) ==>
      Agree(q, out, Some(obj))
  }

  lemma SmallTrees()
    ensures LinkFree(Dir(true, [Entry("f", File)]))
    ensures LinkFree(Dir(true, [Entry("m", Dir(true, [Entry("x", File)]))]))
  {
    var m, f := Dir(true, [Entry("x", File)]), Dir(true, [Entry("f", File)]);
    assert WellNamed(m) && WellNamed(f) && WellNamed(Dir(true, [Entry("m", m)]));
    forall rel ensures At(m, rel) != Some(DirLink) && At(f, rel) != Some(DirLink) {
      if rel != [] {
        OneEntry("x", File, rel);
        OneEntry("f", File, rel);
      }
    }
    forall rel ensures At(Dir(true, [Entry("m", m)]), rel) != Some(DirLink) {
      if rel != [] { OneEntry("m", m, rel); }
    }
  }

  /** Index and walk agree on a kind of search exactly if names are exact and all of
      obj is walked. */
  lemma KindAgreesExactly(moduleType: string, exact: bool)
    ensures KindAgrees(moduleType, exact) <==> exact && OverObj(moduleType)
  {
    SmallTrees();
    hide LinkFree, Agree, OverObj;
    if !OverObj(moduleType) {
      OtherModulesDiffer(moduleType, exact);
      assert Probe("f").(moduleType := moduleType, exact := exact).exact == exact;
    } else if !exact {
      InexactDiffers(moduleType);
      assert Probe("m").(moduleType := moduleType, exact := false).moduleType == moduleType;
    } else {
      forall q: Query, out, obj | q.moduleType == moduleType && q.exact == exact && LinkFree(obj)
        ensures Agree(q, out, Some(obj))
      {
        NoLinks(out, obj);
        AgreeWithoutLinks(q, out, Some(obj));
      }
    }
  }

  lemma NoLinks(out: Path, obj: Node)
    requires LinkFree(obj)
    ensures WellNamed(obj) && forall p :: !IsLink(ObjPath(out), obj, p)
  {}
}
