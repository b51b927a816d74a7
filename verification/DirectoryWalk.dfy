/** aosp_post_build_injector.py: `scandir_walk`, which walks a directory tree with
    an explicit stack, and `os.walk`, which the other searches use. */
module DirectoryWalk {
  import opened Options

  /** A directory as it is listed. A symbolic link to a directory is a node of its
      own; every other entry is a file. Listing an unreadable directory raises. */
  datatype Node = File | DirLink | Dir(readable: bool, entries: seq<Entry>)

  datatype Entry = Entry(name: string, node: Node)

  /** Paths are kept by component. */
  type Path = seq<string>

  datatype FilePath = FilePath(dir: Path, name: string)

  function PathText(path: Path): string {
    if path == [] then "" else if |path| == 1 then path[0] else PathText(path[..|path| - 1]) + "/" + path[|path| - 1]
  }

  function Full(p: FilePath): string { PathText(p.dir) + "/" + p.name }

  /** Names are joined by slashes, that of the file included. */
  lemma PathsJoined(dir: Path, name: string)
    ensures PathText(dir + [name]) == if dir == [] then name else PathText(dir) + "/" + name
    ensures dir != [] ==> Full(FilePath(dir, name)) == PathText(dir + [name])
  {
    var path := dir + [name];
    assert path[..|path| - 1] == dir;
  }

  /** One directory that is waiting, and one triple that is yielded. */
  datatype Place = Place(path: Path, node: Node)

  datatype Visit = Visit(path: Path, dirs: seq<string>, files: seq<string>)

  /** `os.scandir` succeeds. */
  predicate Lists(node: Node) { node.Dir? && node.readable }

  // ----- listing one directory -----

  /** Names listed as directories; `links` says whether links to directories are. */
  function DirNames(es: seq<Entry>, links: bool): seq<string> {
    if es == [] then []
    else DirNames(es[..|es| - 1], links)
         + if es[|es| - 1].node.Dir? || (links && es[|es| - 1].node.DirLink?) then [es[|es| - 1].name] else []
  }

  function FileNames(es: seq<Entry>, links: bool): seq<string> {
    if es == [] then []
    else FileNames(es[..|es| - 1], links)
         + if es[|es| - 1].node.Dir? || (links && es[|es| - 1].node.DirLink?) then [] else [es[|es| - 1].name]
  }

  /** The subdirectories, with their paths. */
  function Subdirs(path: Path, es: seq<Entry>): seq<Place> {
    if es == [] then []
    else Subdirs(path, es[..|es| - 1])
         + if es[|es| - 1].node.Dir? then [Place(path + [es[|es| - 1].name], es[|es| - 1].node)] else []
  }

  // ----- the recursive traversals -----

  /** What `os.walk` yields: a directory before its subdirectories, these in the
      order of the listing. It counts links to directories among the directories
      without following them. */
  function Preorder(path: Path, node: Node, links: bool): seq<Visit>
    decreases node
  {
    if !Lists(node) then []
    else [Visit(path, DirNames(node.entries, links), FileNames(node.entries, links))]
         + PreorderIn(path, node.entries, links)
  }

  function PreorderIn(path: Path, es: seq<Entry>, links: bool): seq<Visit>
    decreases es
  {
    if es == [] then []
    else
      var e := es[|es| - 1];
      PreorderIn(path, es[..|es| - 1], links) + Preorder(path + [e.name], e.node, links)
  }

  /** What the stack yields: the subdirectories from the last to the first. */
  function Backward(path: Path, node: Node): seq<Visit>
    decreases node
  {
    if !Lists(node) then []
    else [Visit(path, DirNames(node.entries, false), FileNames(node.entries, false))] + BackwardIn(path, node.entries)
  }

  function BackwardIn(path: Path, es: seq<Entry>): seq<Visit>
    decreases es
  {
    if es == [] then []
    else
      var e := es[|es| - 1];
      Backward(path + [e.name], e.node) + BackwardIn(path, es[..|es| - 1])
  }

  /** The nodes of a tree. */
  function Size(node: Node): nat
    decreases node
  {
    1 + if node.Dir? then SizeIn(node.entries) else 0
  }

  function SizeIn(es: seq<Entry>): nat
    decreases es
  {
    if es == [] then 0 else SizeIn(es[..|es| - 1]) + Size(es[|es| - 1].node)
  }

  function Waiting(stack: seq<Place>): nat {
    if stack == [] then 0 else Waiting(stack[..|stack| - 1]) + Size(stack[|stack| - 1].node)
  }

  /** What is still to be yielded, the top of the stack first. */
  function Rest(stack: seq<Place>): seq<Visit> {
    if stack == [] then []
    else Backward(stack[|stack| - 1].path, stack[|stack| - 1].node) + Rest(stack[..|stack| - 1])
  }

  lemma RestPush(stack: seq<Place>, p: Place)
    ensures Rest(stack + [p]) == Backward(p.path, p.node) + Rest(stack)
    ensures Waiting(stack + [p]) == Waiting(stack) + Size(p.node)
  {
    assert (stack + [p])[..|stack|] == stack;
  }

  lemma Associate<T>(a: seq<T>, b: seq<T>, c: seq<T>)
    ensures (a + b) + c == a + (b + c)
  {}

  lemma SubdirsNext(path: Path, es: seq<Entry>)
    requires es != []
    ensures var n, e := |es| - 1, es[|es| - 1];
            Subdirs(path, es) == Subdirs(path, es[..n]) + if e.node.Dir? then [Place(path + [e.name], e.node)] else []
  {}

  lemma BackwardNext(path: Path, es: seq<Entry>)
    requires es != []
    ensures var n, e := |es| - 1, es[|es| - 1];
      && BackwardIn(path, es) == Backward(path + [e.name], e.node) + BackwardIn(path, es[..n])
      && SizeIn(es) == SizeIn(es[..n]) + Size(e.node)
      && (!e.node.Dir? ==> BackwardIn(path, es) == BackwardIn(path, es[..n]))
  {}

  lemma {:induction false} RestOfSubdirs(stack: seq<Place>, path: Path, es: seq<Entry>)
    ensures Rest(stack + Subdirs(path, es)) == BackwardIn(path, es) + Rest(stack)
    ensures Waiting(stack + Subdirs(path, es)) <= Waiting(stack) + SizeIn(es)
    decreases |es|
  {
    if es == [] {
      assert stack + [] == stack;
    } else {
      var n, e := |es| - 1, es[|es| - 1];
      RestOfSubdirs(stack, path, es[..n]);
      SubdirsNext(path, es);
      BackwardNext(path, es);
      hide Rest, Waiting, Subdirs, Backward, BackwardIn, Size, SizeIn;
      var before := stack + Subdirs(path, es[..n]);
      if e.node.Dir? {
        var p := Place(path + [e.name], e.node);
        RestPush(before, p);
        Associate(stack, Subdirs(path, es[..n]), [p]);
        Associate(Backward(p.path, p.node), BackwardIn(path, es[..n]), Rest(stack));
      } else {
        assert Subdirs(path, es) == Subdirs(path, es[..n]);
      }
    }
  }

  /** One turn of the loop: the directory on top of the stack is yielded, its
      subdirectories take its place. */
  lemma TurnKeeps(visits: seq<Visit>, stack: seq<Place>, place: Place, all: seq<Visit>)
    requires visits + Rest(stack + [place]) == all
    ensures Waiting(stack) < Waiting(stack + [place])
    ensures !Lists(place.node) ==> visits + Rest(stack) == all
    ensures Lists(place.node) ==>
      var es := place.node.entries;
      && visits + [Visit(place.path, DirNames(es, false), FileNames(es, false))]
         + Rest(stack + Subdirs(place.path, es)) == all
      && Waiting(stack + Subdirs(place.path, es)) < Waiting(stack + [place])
  {
    RestPush(stack, place);
    hide Rest, Waiting, Subdirs, BackwardIn, SizeIn, DirNames, FileNames;
    if Lists(place.node) {
      var es := place.node.entries;
      RestOfSubdirs(stack, place.path, es);
      var visit := Visit(place.path, DirNames(es, false), FileNames(es, false));
      assert Backward(place.path, place.node) == [visit] + BackwardIn(place.path, es);
      Associate([visit], BackwardIn(place.path, es), Rest(stack));
      Associate(visits, [visit], BackwardIn(place.path, es) + Rest(stack));
    }
  }

  /** `scandir_walk`; it collects what the generator yields. */
  method ScandirWalk(top: Path, tree: Node) returns (visits: seq<Visit>)
    ensures visits == Backward(top, tree)
  {
    visits := [];
    var stack := [Place(top, tree)];
    RestPush([], Place(top, tree));
    assert [] + [Place(top, tree)] == stack && Rest([]) == [];
    hide Rest, Waiting, Backward, Subdirs, DirNames, FileNames;
    while stack != []
      invariant visits + Rest(stack) == Backward(top, tree)
      decreases Waiting(stack)
    {
      var last := |stack| - 1;
      var place := stack[last];
      assert stack == stack[..last] + [place];
      stack := stack[..last];
      TurnKeeps(visits, stack, place, Backward(top, tree));
      if Lists(place.node) {
        var dirnames, filenames, dirPaths := List(place);
        visits := visits + [Visit(place.path, dirnames, filenames)];
        stack := stack + dirPaths;
      }
    }
    RestNothing();
  }

  lemma RestNothing()
    ensures Rest([]) == []
  {}

  /** The inner loop over one listing. */
  method List(place: Place) returns (dirnames: seq<string>, filenames: seq<string>, dirPaths: seq<Place>)
    requires place.node.Dir?
    ensures dirnames == DirNames(place.node.entries, false) && filenames == FileNames(place.node.entries, false)
    ensures dirPaths == Subdirs(place.path, place.node.entries)
  {
    dirnames, filenames, dirPaths := [], [], [];
    var es := place.node.entries;
    for i := 0 to |es|
      invariant dirnames == DirNames(es[..i], false) && filenames == FileNames(es[..i], false)
      invariant dirPaths == Subdirs(place.path, es[..i])
    {
      assert es[..i + 1][..i] == es[..i];
      if es[i].node.Dir? {
        dirnames := dirnames + [es[i].name];
        dirPaths := dirPaths + [Place(place.path + [es[i].name], es[i].node)];
      } else {
        filenames := filenames + [es[i].name];
      }
    }
    assert es[..|es|] == es;
  }

  /** The stack yields every directory as often as the recursive traversal does,
      with the same entries. */
  lemma {:induction false} WalkPermutes(path: Path, node: Node)
    ensures multiset(Backward(path, node)) == multiset(Preorder(path, node, false))
    decreases node
  {
    if Lists(node) {
      WalkPermutesIn(path, node.entries);
    }
  }

  lemma {:induction false} WalkPermutesIn(path: Path, es: seq<Entry>)
    ensures multiset(BackwardIn(path, es)) == multiset(PreorderIn(path, es, false))
    decreases es
  {
    if es != [] {
      WalkPermutesIn(path, es[..|es| - 1]);
      WalkPermutes(path + [es[|es| - 1].name], es[|es| - 1].node);
    }
  }

  // ----- which files a walk lists -----

  /** No name twice in a directory. */
  ghost predicate WellNamed(node: Node)
    decreases node
  {
    node.Dir? ==>
      && Distinct(node.entries)
      && forall i :: 0 <= i < |node.entries| ==> WellNamed(node.entries[i].node)
  }

  ghost predicate Distinct(es: seq<Entry>) { forall i, j :: 0 <= i < j < |es| ==> es[i].name != es[j].name }

  function Find(es: seq<Entry>, name: string): Option<Node> {
    if es == [] then None
    else if es[|es| - 1].name == name then Some(es[|es| - 1].node)
    else Find(es[..|es| - 1], name)
  }

  /** The node that a relative path leads to through readable directories. */
  function At(node: Node, rel: Path): Option<Node>
    decreases |rel|
  {
    if rel == [] then Some(node)
    else if !Lists(node) then None
    else match Find(node.entries, rel[0]) case None => None case Some(child) => At(child, rel[1..])
  }

  /** What a walk lists as a file. */
  predicate Counts(at: Option<Node>, links: bool) { at.Some? && (at.value.File? || (!links && at.value.DirLink?)) }

  function Listed(visits: seq<Visit>): set<FilePath> {
    set v, f | v in visits && f in v.files :: FilePath(v.path, f)
  }

  lemma ListedAdd(a: seq<Visit>, b: seq<Visit>)
    ensures Listed(a + b) == Listed(a) + Listed(b)
  {
    assert forall v :: v in a + b <==> v in a || v in b;
  }

  lemma {:induction false} FindSome(es: seq<Entry>, name: string)
    ensures Find(es, name).Some? <==> exists i :: 0 <= i < |es| && es[i].name == name
    decreases |es|
  {
    if es != [] {
      var n := |es| - 1;
      FindSome(es[..n], name);
      if i :| 0 <= i < n && es[i].name == name { assert es[..n][i].name == name; }
    }
  }

  lemma {:induction false} FileNamesFind(es: seq<Entry>, links: bool, name: string)
    requires Distinct(es)
    ensures name in FileNames(es, links) <==> Find(es, name).Some? && !Find(es, name).value.Dir?
                                              && !(links && Find(es, name).value.DirLink?)
    ensures Find(es, name).Some? <==> exists i :: 0 <= i < |es| && es[i].name == name
    decreases |es|
  {
    FindSome(es, name);
    if es != [] {
      var n := |es| - 1;
      FileNamesFind(es[..n], links, name);
      assert Find(es, name) == if es[n].name == name then Some(es[n].node) else Find(es[..n], name);
      if es[n].name == name {
        assert forall i :: 0 <= i < n ==> es[..n][i].name != name;
      }
      LastName(es, links);
      hide FileNames, Find, Distinct;
    }
  }

  lemma LastName(es: seq<Entry>, links: bool)
    requires es != []
    ensures var n := |es| - 1;
            forall x :: x in FileNames(es, links) <==>
              || x in FileNames(es[..n], links)
              || (x == es[n].name && !es[n].node.Dir? && !(links && es[n].node.DirLink?))
  {}

  /** A file below one of the entries. */
  ghost predicate Below(path: Path, es: seq<Entry>, links: bool, p: FilePath) {
    && path < p.dir
    && var child := Find(es, p.dir[|path|]);
       child.Some? && Counts(At(child.value, p.dir[|path| + 1..] + [p.name]), links)
  }

  /** A walk lists exactly the files that the tree has at their place. */
  lemma {:induction false} WalkExactly(path: Path, node: Node, links: bool, p: FilePath)
    requires WellNamed(node)
    ensures p in Listed(Preorder(path, node, links)) <==>
            path <= p.dir && Counts(At(node, p.dir[|path|..] + [p.name]), links)
    decreases node
  {
    if Lists(node) {
      var es := node.entries;
      WalkExactlyIn(path, es, links, p);
      FileNamesFind(es, links, p.name);
      hide PreorderIn, FileNames, DirNames, Find;
      var first := Visit(path, DirNames(es, links), FileNames(es, links));
      ListedAdd([first], PreorderIn(path, es, links));
      assert p in Listed([first]) <==> p.dir == path && p.name in first.files;
      if path <= p.dir {
        var rel := p.dir[|path|..] + [p.name];
        if p.dir == path {
          assert rel == [p.name] && rel[1..] == [];
        } else {
          assert rel[0] == p.dir[|path|] && rel[1..] == p.dir[|path| + 1..] + [p.name];
        }
      }
    } else if path <= p.dir {
      assert p.dir[|path|..] + [p.name] != [];
    }
  }

  lemma {:induction false} WalkExactlyIn(path: Path, es: seq<Entry>, links: bool, p: FilePath)
    requires Distinct(es) && forall i :: 0 <= i < |es| ==> WellNamed(es[i].node)
    ensures p in Listed(PreorderIn(path, es, links)) <==> Below(path, es, links, p)
    decreases es
  {
    if es != [] {
      var n, e := |es| - 1, es[|es| - 1];
      WalkExactlyIn(path, es[..n], links, p);
      WalkExactly(path + [e.name], e.node, links, p);
      ListedAdd(PreorderIn(path, es[..n], links), Preorder(path + [e.name], e.node, links));
      hide Preorder, Listed, WellNamed;
      if path < p.dir && p.dir[|path|] == e.name {
        FileNamesFind(es[..n], links, e.name);
        assert path + [e.name] <= p.dir;
      } else {
        assert !(path + [e.name] <= p.dir);
      }
    }
  }

  lemma SameListing(a: seq<Visit>, b: seq<Visit>)
    requires multiset(a) == multiset(b)
    ensures Listed(a) == Listed(b)
  {
    assert forall v :: v in a <==> v in multiset(a);
    assert forall v :: v in b <==> v in multiset(b);
  }

  /** Against `os.walk`, the stack lists the links to directories as well, and
      nothing else. */
  lemma ListingsDiffer(top: Path, tree: Node, p: FilePath)
    requires WellNamed(tree)
    ensures p in Listed(Backward(top, tree)) <==>
            p in Listed(Preorder(top, tree, true)) || IsLink(top, tree, p)
    ensures !(p in Listed(Preorder(top, tree, true)) && IsLink(top, tree, p))
  {
    WalkPermutes(top, tree);
    SameListing(Backward(top, tree), Preorder(top, tree, false));
    WalkExactly(top, tree, false, p);
    WalkExactly(top, tree, true, p);
  }

  /** The tree has a link to a directory there. */
  predicate IsLink(top: Path, tree: Node, p: FilePath) {
    top <= p.dir && At(tree, p.dir[|top|..] + [p.name]) == Some(DirLink)
  }

  // ----- every directory once -----

  ghost predicate Once(visits: seq<Visit>) { forall i, j :: 0 <= i < j < |visits| ==> visits[i].path != visits[j].path }

  ghost predicate Visited(visits: seq<Visit>, p: Path) { exists v :: v in visits && v.path == p }

  /** A readable directory below one of the entries. */
  ghost predicate DirBelow(path: Path, es: seq<Entry>, p: Path) {
    && path < p
    && var child := Find(es, p[|path|]);
       child.Some? && var at := At(child.value, p[|path| + 1..]); at.Some? && Lists(at.value)
  }

  lemma OnceConcat(a: seq<Visit>, b: seq<Visit>)
    requires Once(a) && Once(b) && forall p :: !(Visited(a, p) && Visited(b, p))
    ensures Once(a + b)
  {
    forall i, j | 0 <= i < j < |a + b| ensures (a + b)[i].path != (a + b)[j].path {
      if i < |a| <= j {
        assert a[i] in a && b[j - |a|] in b;
        assert Visited(a, a[i].path) && Visited(b, b[j - |a|].path);
      }
    }
  }

  lemma VisitedConcat(a: seq<Visit>, b: seq<Visit>, p: Path)
    ensures Visited(a + b, p) <==> Visited(a, p) || Visited(b, p)
  {
    assert forall v :: v in a + b <==> v in a || v in b;
  }

  /** The stack yields every readable directory that can be reached, and each one
      once. */
  lemma {:induction false} EveryDirectoryOnce(path: Path, node: Node)
    requires WellNamed(node)
    ensures Once(Backward(path, node))
    ensures forall p :: Visited(Backward(path, node), p) <==>
              path <= p && var at := At(node, p[|path|..]); at.Some? && Lists(at.value)
    decreases node
  {
    if Lists(node) {
      var es := node.entries;
      EveryDirectoryOnceIn(path, es);
      var first := [Visit(path, DirNames(es, false), FileNames(es, false))];
      hide BackwardIn, DirNames, FileNames, WellNamed;
      assert forall p :: Visited(first, p) <==> p == path by { assert first[0] in first; }
      OnceConcat(first, BackwardIn(path, es));
      forall p ensures Visited(Backward(path, node), p) <==>
                       path <= p && var at := At(node, p[|path|..]); at.Some? && Lists(at.value) {
        VisitedConcat(first, BackwardIn(path, es), p);
        if path < p { assert p[|path|..][0] == p[|path|] && p[|path|..][1..] == p[|path| + 1..]; }
        if path == p { assert p[|path|..] == []; }
      }
    } else {
      forall p | path <= p && p[|path|..] != [] ensures At(node, p[|path|..]) == None {}
    }
  }

  lemma {:induction false} EveryDirectoryOnceIn(path: Path, es: seq<Entry>)
    requires Distinct(es) && forall i :: 0 <= i < |es| ==> WellNamed(es[i].node)
    ensures Once(BackwardIn(path, es))
    ensures forall p :: Visited(BackwardIn(path, es), p) <==> DirBelow(path, es, p)
    decreases es
  {
    if es != [] {
      var n, e := |es| - 1, es[|es| - 1];
      var child := path + [e.name];
      EveryDirectoryOnceIn(path, es[..n]);
      EveryDirectoryOnce(child, e.node);
      FileNamesFind(es[..n], false, e.name);
      hide Backward, BackwardIn, WellNamed, FileNames, Once;
      forall p ensures Visited(Backward(child, e.node), p) ==> path < p && p[|path|] == e.name {
        if child <= p { assert p[|path|] == child[|path|]; }
      }
      OnceConcat(Backward(child, e.node), BackwardIn(path, es[..n]));
      forall p ensures Visited(BackwardIn(path, es), p) <==> DirBelow(path, es, p) {
        VisitedConcat(Backward(child, e.node), BackwardIn(path, es[..n]), p);
        ChildBelow(path, es, p);
        BackwardNext(path, es);
      }
      BackwardNext(path, es);
    }
  }

  lemma ChildBelow(path: Path, es: seq<Entry>, p: Path)
    requires es != []
    ensures var n, e := |es| - 1, es[|es| - 1];
      DirBelow(path, es, p) <==>
        if path < p && p[|path|] == e.name then
          var at := At(e.node, p[|path| + 1..]); path + [e.name] <= p && at.Some? && Lists(at.value)
        else DirBelow(path, es[..n], p)
  {}
}
