/** aosp_vintf_handler.py: merging two directories of VINTF documents. Which HALs
    survive, and why the order of the directory listings does not matter. */
module Vintf {
  import opened Options
  import opened Staging
  import opened Text

  /** A `<hal>` block with its stripped name, if it has one, and the attributes
      that are injected. */
  datatype Hal = Hal(name: Option<string>, overriding: bool, optional: bool)

  /** A parsed document whose HALs are children of the root. */
  datatype Doc = Doc(tag: string, kind: string, hals: seq<Hal>)

  /** A staging directory. All files end in `.xml`, which is left off. */
  type Stage = map<string, Doc>

  // ----- one document -----

  function NamesOf(hals: seq<Hal>): set<string> {
    set h | h in hals && h.name.Some? :: h.name.value
  }

  function Names(d: Doc): set<string> { NamesOf(d.hals) }

  predicate Targeted(h: Hal, targets: set<string>) { h.name.Some? && h.name.value in targets }

  function Spared(hals: seq<Hal>, targets: set<string>): seq<Hal> {
    if hals == [] then []
    else Spared(hals[..|hals| - 1], targets) + if Targeted(hals[|hals| - 1], targets) then [] else [hals[|hals| - 1]]
  }

  /** Everything would be removed, and the root is not a manifest: the file is
      reported empty and stays as it was. */
  predicate Emptied(d: Doc, targets: set<string>) {
    d.hals != [] && Spared(d.hals, targets) == [] && d.tag != "manifest"
  }

  /** What `remove_duplicate_hals_from_file` leaves in the file. */
  function Cleaned(d: Doc, targets: set<string>): Doc {
    if Emptied(d, targets) then d else d.(hals := Spared(d.hals, targets))
  }

  function Injected(hals: seq<Hal>, matrix: bool): seq<Hal> {
    seq(|hals|, i requires 0 <= i < |hals| =>
      if matrix then hals[i].(optional := true) else hals[i].(overriding := true))
  }

  function Inject(name: string, d: Doc): Doc {
    d.(hals := Injected(d.hals, IsMatrix(d.tag) || IsMatrix(name)))
  }

  lemma {:induction false} SparedIn(hals: seq<Hal>, targets: set<string>, h: Hal)
    ensures h in Spared(hals, targets) <==> h in hals && !Targeted(h, targets)
    decreases |hals|
  {
    if hals != [] {
      SparedIn(hals[..|hals| - 1], targets, h);
      assert hals == hals[..|hals| - 1] + [hals[|hals| - 1]];
    }
  }

  lemma SparedNames(hals: seq<Hal>, targets: set<string>)
    ensures NamesOf(Spared(hals, targets)) == NamesOf(hals) - targets
    ensures Spared(hals, targets) == [] <==> forall h <- hals :: Targeted(h, targets)
  {
    var left := Spared(hals, targets);
    forall h ensures h in left <==> h in hals && !Targeted(h, targets) { SparedIn(hals, targets, h); }
    if left != [] { assert left[0] in left; }
  }

  lemma InjectNames(name: string, d: Doc)
    ensures Names(Inject(name, d)) == Names(d)
  {
    var hals := Inject(name, d).hals;
    assert forall i :: 0 <= i < |hals| ==> hals[i].name == d.hals[i].name;
    forall x | x in Names(d) ensures x in NamesOf(hals) {
      var i :| 0 <= i < |d.hals| && d.hals[i].name == Some(x);
      assert hals[i] in hals;
    }
  }

  /** `extract_hal_names_from_file` */
  method ExtractHalNames(d: Doc) returns (names: set<string>)
    ensures names == Names(d)
  {
    names := {};
    for i := 0 to |d.hals|
      invariant names == NamesOf(d.hals[..i])
    {
      assert d.hals[..i + 1] == d.hals[..i] + [d.hals[i]];
      if d.hals[i].name.Some? { names := names + {d.hals[i].name.value}; }
    }
    assert d.hals[..|d.hals|] == d.hals;
  }

  datatype Status = Unchanged | Written | Empty

  /** `remove_duplicate_hals_from_file`: collect, remove one by one, decide. */
  method RemoveDuplicateHals(d: Doc, targets: set<string>) returns (file: Doc, status: Status)
    ensures file == Cleaned(d, targets)
    ensures status == Empty <==> Emptied(d, targets)
    ensures status == Unchanged <==> file == d && !Emptied(d, targets)
  {
    var left: seq<Hal>, modified := [], false;
    for i := 0 to |d.hals|
      invariant left == Spared(d.hals[..i], targets) && |left| <= i
      invariant !modified <==> left == d.hals[..i]
      invariant !modified <==> |left| == i
    {
      assert d.hals[..i + 1][..i] == d.hals[..i] && d.hals[..i + 1] == d.hals[..i] + [d.hals[i]];
      if Targeted(d.hals[i], targets) { modified := true; } else { left := left + [d.hals[i]]; }
    }
    assert d.hals[..|d.hals|] == d.hals;
    if !modified { return d, Unchanged; }
    if left == [] && d.tag != "manifest" { return d, Empty; }
    file, status := d.(hals := left), Written;
  }

  // ----- the merge, file by file -----

  /** HAL names of the files that are no matrices. */
  function StageNames(s: Stage): set<string> {
    set n, x | n in s && !IsMatrix(n) && x in Names(s[n]) :: x
  }

  function PrimaryNames(a: Stage, v: Stage): set<string> {
    if Manifest() in a then Names(a[Manifest()]) else if Manifest() in v then Names(v[Manifest()]) else {}
  }

  predicate Skipped(d: Doc, targets: set<string>) { Names(d) != {} && Names(d) <= targets }

  /** What becomes of a document, staged under `dest`, whose HALs in `targets` are
      removed. */
  function Processed(name: string, dest: string, d: Doc, targets: set<string>): Option<Doc> {
    if IsMatrix(name) then Some(Inject(dest, d))
    else if name != Manifest() && Skipped(d, targets) then None
    else Some(Inject(dest, Cleaned(d, targets)))
  }

  function AospTargets(a: Stage, v: Stage, name: string): set<string> {
    StageNames(v) + if name == Manifest() then {} else PrimaryNames(a, v)
  }

  function AospFile(a: Stage, v: Stage, name: string): Option<Doc> {
    if name in a then Processed(name, name, a[name], AospTargets(a, v, name)) else None
  }

  /** What the AOSP files `done` leave in the output directory. */
  function BaseOf(a: Stage, v: Stage, done: set<string>): Stage {
    map n | n in a && n in done && AospFile(a, v, n).Some? :: AospFile(a, v, n).value
  }

  function Base(a: Stage, v: Stage): Stage { BaseOf(a, v, a.Keys) }

  function VendorFile(a: Stage, v: Stage, name: string): Option<Doc> {
    if name in v then Processed(name, name, v[name], PrimaryNames(a, v)) else None
  }

  /** The vendor files that are to be staged. */
  function Vend(a: Stage, v: Stage): Stage {
    map n | n in v && VendorFile(a, v, n).Some? :: VendorFile(a, v, n).value
  }

  /** The names given to vendor files that clash with AOSP files are not taken. */
  ghost predicate NoCollisions(a: Stage, v: Stage) {
    forall n :: n in a && n in v && !IsMatrix(n) ==> Alias(n) !in a && Alias(n) !in v
  }

  /** What survives the subset check cannot come out empty. */
  lemma NeverEmpty(d: Doc, targets: set<string>)
    requires !Skipped(d, targets)
    ensures !Emptied(d, targets)
  {
    SparedNames(d.hals, targets);
    assert d.hals != [] ==> d.hals[0] in d.hals;
    assert forall h <- d.hals :: Targeted(h, targets) ==> h.name.value in Names(d);
  }

  /** A manifest is staged alike under either name. */
  lemma ProcessedAlias(name: string, d: Doc, targets: set<string>)
    requires !IsMatrix(name)
    ensures Processed(name, Alias(name), d, targets) == Processed(name, name, d, targets)
  {
    AliasNames(name, name);
    hide IsMatrix, Alias;
  }

  /** One turn of the AOSP loop. */
  method AddAosp(out: Stage, a: Stage, name: string, vendorNames: set<string>, exclusion: set<string>, ghost v: Stage)
    returns (next: Stage)
    requires name in a && name !in out
    requires vendorNames == StageNames(v) && exclusion == StageNames(v) + PrimaryNames(a, v)
    ensures next == match AospFile(a, v, name) case Some(d) => out[name := d] case None => out
  {
    next := out;
    var file, status := a[name], Unchanged;
    if IsMatrix(name) {
      next := out[name := Inject(name, file)];
    } else if name == Manifest() {
      assert AospTargets(a, v, name) == vendorNames;
      file, status := RemoveDuplicateHals(file, vendorNames);
      next := out[name := Inject(name, file)];
    } else {
      assert AospTargets(a, v, name) == exclusion;
      var hals := ExtractHalNames(file);
      if hals != {} && hals <= exclusion { return; }
      NeverEmpty(file, exclusion);
      file, status := RemoveDuplicateHals(file, exclusion);
      assert status != Empty;
      next := if status == Empty then out - {name} else out[name := Inject(name, file)];
    }
  }

  /** One turn of the vendor loop. */
  method AddVendor(out: Stage, v: Stage, name: string, primary: set<string>, ghost a: Stage) returns (next: Stage)
    requires name in v && primary == PrimaryNames(a, v)
    ensures next == Put(out, Vend(a, v), name)
  {
    next := out;
    if !IsMatrix(name) { ProcessedAlias(name, v[name], primary); }
    var file, status, dest := v[name], Unchanged, name;
    if IsMatrix(name) {
      if name !in out { next := out[dest := Inject(dest, file)]; }
    } else if name == Manifest() {
      if dest in out { dest := ManifestRoot(); }
      file, status := RemoveDuplicateHals(file, primary);
      next := out[dest := Inject(dest, file)];
    } else {
      var hals := ExtractHalNames(file);
      if hals != {} && hals <= primary { return; }
      if dest in out { dest := Override(name); }
      NeverEmpty(file, primary);
      file, status := RemoveDuplicateHals(file, primary);
      assert status != Empty;
      next := if status == Empty then out - {dest} else out[dest := Inject(dest, file)];
    }
  }

  method CollectNames(s: Stage, listing: seq<string>) returns (names: set<string>)
    requires Listing(s.Keys, listing)
    ensures names == StageNames(s)
  {
    names := {};
    for i := 0 to |listing|
      invariant names == set n, x | n in listing[..i] && n in s && !IsMatrix(n) && x in Names(s[n]) :: x
    {
      assert listing[..i + 1] == listing[..i] + [listing[i]];
      if !IsMatrix(listing[i]) {
        var more := ExtractHalNames(s[listing[i]]);
        names := names + more;
      }
    }
    assert listing[..|listing|] == listing;
  }

  method StageAosp(a: Stage, v: Stage, listing: seq<string>, vendorNames: set<string>, exclusion: set<string>)
    returns (out: Stage)
    requires Listing(a.Keys, listing)
    requires vendorNames == StageNames(v) && exclusion == StageNames(v) + PrimaryNames(a, v)
    ensures out == Base(a, v)
  {
    out := map[];
    hide AospFile, StageNames, PrimaryNames;
    UptoEnds(a.Keys, listing);
    hide Upto;
    assert BaseOf(a, v, {}) == map[];
    hide BaseOf;
    for i := 0 to |listing|
      invariant out == BaseOf(a, v, Upto(listing, i))
    {
      UptoNext(listing, i);
      BaseNext(a, v, Upto(listing, i), listing[i]);
      assert listing[i] in listing;
      out := AddAosp(out, a, listing[i], vendorNames, exclusion, v);
    }
  }

  lemma BaseNext(a: Stage, v: Stage, done: set<string>, name: string)
    requires name in a && name !in done
    ensures name !in BaseOf(a, v, done)
    ensures BaseOf(a, v, done + {name})
         == match AospFile(a, v, name) case Some(d) => BaseOf(a, v, done)[name := d] case None => BaseOf(a, v, done)
  {
    hide AospFile;
  }

  method StageVendor(base: Stage, v: Stage, listing: seq<string>, primary: set<string>, ghost a: Stage)
    returns (out: Stage)
    requires primary == PrimaryNames(a, v) && forall n <- listing :: n in v
    ensures out == PutAll(base, Vend(a, v), listing)
  {
    hide Put, Vend, PrimaryNames;
    out := base;
    for i := 0 to |listing|
      invariant out == PutAll(base, Vend(a, v), listing[..i])
    {
      assert listing[..i + 1][..i] == listing[..i] && listing[i] in listing;
      out := AddVendor(out, v, listing[i], primary, a);
    }
    assert listing[..|listing|] == listing;
  }

  /** `merge_vintf_artifacts`, up to the staged files. The directories are listed in
      any order, the vendor stage twice. */
  method MergeVintfArtifacts(a: Stage, v: Stage, aospListing: seq<string>, vendorListing: seq<string>,
                             vendorListing': seq<string>)
    returns (out: Stage)
    requires Listing(a.Keys, aospListing) && Listing(v.Keys, vendorListing) && Listing(v.Keys, vendorListing')
    ensures out == PutAll(Base(a, v), Vend(a, v), vendorListing')
    ensures forall n <- out :: HasSource(a, v, n, out[n])
  {
    var primary: set<string> := {};
    if Manifest() in a {
      primary := ExtractHalNames(a[Manifest()]);
    } else if Manifest() in v {
      primary := ExtractHalNames(v[Manifest()]);
    }
    assert primary == PrimaryNames(a, v);
    hide StageNames, PrimaryNames, Manifest;
    var vendorNames := CollectNames(v, vendorListing);
    var base := StageAosp(a, v, aospListing, vendorNames, vendorNames + primary);
    out := StageVendor(base, v, vendorListing', primary, a);
    hide PutAll, HasSource, Listing, Base, Vend;
    forall n | n in out ensures HasSource(a, v, n, out[n]) { StagedHals(a, v, vendorListing', n); }
  }

  /** The staged files are the same for all listings exactly if no vendor file that
      can be pushed from its name is put where something else would be. */
  lemma OrderIndependentExactly(a: Stage, v: Stage)
    ensures OrderFree(Base(a, v), Vend(a, v), v.Keys) <==> PushesNothing(Base(a, v), Vend(a, v))
  {
    OrderFreeExactly(Base(a, v), Vend(a, v), v.Keys);
  }

  lemma {:induction false} NothingPushable(a: Stage, v: Stage, c: string)
    requires NoCollisions(a, v)
    ensures !Pushable(Base(a, v), Vend(a, v), c)
    decreases |c|
  {
    hide AospFile, VendorFile, IsMatrix, Alias;
    var base, vend := Base(a, v), Vend(a, v);
    forall p | |p| < |c| && Alias(p) == c && p in vend && !IsMatrix(p) && c in vend
      ensures p !in base && !Pushable(base, vend, p)
    {
      NothingPushable(a, v, p);
    }
  }

  /** Without collisions the order never matters. */
  lemma NoCollisionsOrderFree(a: Stage, v: Stage)
    requires NoCollisions(a, v)
    ensures OrderFree(Base(a, v), Vend(a, v), v.Keys)
  {
    forall c ensures !Pushable(Base(a, v), Vend(a, v), c) { NothingPushable(a, v, c); }
    hide Pushable;
    OrderIndependentExactly(a, v);
  }

  // ----- which names survive -----

  /** A manifest file comes back untouched although all its HALs were to go. */
  ghost predicate Stuck(a: Stage, v: Stage) {
    || (Manifest() in a && Emptied(a[Manifest()], StageNames(v)))
    || (Manifest() in v && Emptied(v[Manifest()], PrimaryNames(a, v)))
  }

  function Kept(file: Option<Doc>): set<string> { if file.Some? then Names(file.value) else {} }

  /** The names that stay in a file that is no matrix; a stuck manifest keeps all,
      and has some. */
  lemma ProcessedNames(name: string, dest: string, d: Doc, targets: set<string>)
    requires !IsMatrix(name)
    ensures var f := Processed(name, dest, d, targets);
      if name == Manifest() && Emptied(d, targets) then Kept(f) == Names(d) && Names(d) != {} && Names(d) <= targets
      else Kept(f) == Names(d) - targets
  {
    SparedNames(d.hals, targets);
    InjectNames(dest, Cleaned(d, targets));
    if !Skipped(d, targets) { NeverEmpty(d, targets); }
    hide IsMatrix, Injected;
    if d.hals != [] && Spared(d.hals, targets) == [] {
      assert d.hals[0] in d.hals && d.hals[0].name.value in Names(d);
      assert Names(d) - targets == {};
    }
  }

  /** Names in the files that come from AOSP, and from the vendor. */
  ghost predicate AospKeeps(a: Stage, v: Stage, x: string) {
    exists n :: n in a && !IsMatrix(n) && x in Kept(AospFile(a, v, n))
  }

  ghost predicate VendorKeeps(a: Stage, v: Stage, x: string) {
    exists n :: n in v && !IsMatrix(n) && x in Kept(VendorFile(a, v, n))
  }

  lemma AospNames(a: Stage, v: Stage, x: string)
    requires Manifest() in a ==> !Emptied(a[Manifest()], StageNames(v))
    ensures AospKeeps(a, v, x) <==> x in StageNames(a) - StageNames(v) && (Manifest() in a || x !in PrimaryNames(a, v))
  {
    RootsNoMatrix();
    assert StageNames(v) + {} == StageNames(v);
    forall n | n in a && !IsMatrix(n) ensures Kept(AospFile(a, v, n)) == Names(a[n]) - AospTargets(a, v, n) {
      ProcessedNames(n, n, a[n], AospTargets(a, v, n));
    }
    hide AospFile, Emptied, Names, IsMatrix, Kept, Manifest;
    if x in StageNames(a) - StageNames(v) && (Manifest() in a || x !in PrimaryNames(a, v)) {
      if x in PrimaryNames(a, v) {
        assert x in Kept(AospFile(a, v, Manifest()));
      } else {
        var n :| n in a && !IsMatrix(n) && x in Names(a[n]);
        assert x in Kept(AospFile(a, v, n));
      }
    }
  }

  lemma VendorNames(a: Stage, v: Stage, x: string)
    requires Manifest() in v ==> !Emptied(v[Manifest()], PrimaryNames(a, v))
    ensures VendorKeeps(a, v, x) <==> x in StageNames(v) - PrimaryNames(a, v)
  {
    var primary := PrimaryNames(a, v);
    forall n | n in v && !IsMatrix(n) ensures Kept(VendorFile(a, v, n)) == Names(v[n]) - primary {
      ProcessedNames(n, n, v[n], primary);
    }
    hide VendorFile, Emptied, Names, IsMatrix, Kept, Manifest, PrimaryNames;
    if x in StageNames(v) - primary {
      var n :| n in v && !IsMatrix(n) && x in Names(v[n]);
      assert x in Kept(VendorFile(a, v, n));
    }
  }

  /** The name is in a file, of either side, that is not overwritten. */
  ghost predicate AospHas(a: Stage, v: Stage, movers: set<string>, x: string) {
    exists n :: AospStays(Base(a, v), movers, n) && !IsMatrix(n) && x in Kept(AospFile(a, v, n))
  }

  ghost predicate VendorHas(a: Stage, v: Stage, movers: set<string>, x: string) {
    exists n :: VendorStays(Base(a, v), Vend(a, v), movers, n) && !IsMatrix(n) && x in Kept(VendorFile(a, v, n))
  }

  lemma OutputTo(a: Stage, v: Stage, listing: seq<string>, x: string)
    requires Listing(v.Keys, listing) && x in StageNames(PutAll(Base(a, v), Vend(a, v), listing))
    ensures var movers := Movers(Base(a, v), Vend(a, v), listing);
            AospHas(a, v, movers, x) || VendorHas(a, v, movers, x)
  {
    var base, vend := Base(a, v), Vend(a, v);
    var out, movers := PutAll(base, vend, listing), Movers(base, vend, listing);
    var n :| n in out && !IsMatrix(n) && x in Names(out[n]);
    StaysOnly(base, vend, v.Keys, listing, n, out[n]);
    ShapeOf(base, vend, v.Keys, listing);
    hide IsMatrix, Names, AospFile, VendorFile, PutAll, Movers, Shape, Alias;
    if AospStays(base, movers, n) && base[n] == out[n] {
      assert x in Kept(AospFile(a, v, n));
    } else if VendorStays(base, vend, movers, n) && n !in movers && vend[n] == out[n] {
      assert x in Kept(VendorFile(a, v, n));
    } else {
      var s :| s in movers && Alias(s) == n && VendorStays(base, vend, movers, s) && vend[s] == out[n];
      assert x in Kept(VendorFile(a, v, s)) && !IsMatrix(s);
    }
  }

  lemma OutputFrom(a: Stage, v: Stage, listing: seq<string>, x: string)
    requires Listing(v.Keys, listing)
    requires var movers := Movers(Base(a, v), Vend(a, v), listing);
             AospHas(a, v, movers, x) || VendorHas(a, v, movers, x)
    ensures x in StageNames(PutAll(Base(a, v), Vend(a, v), listing))
  {
    var base, vend := Base(a, v), Vend(a, v);
    var movers := Movers(base, vend, listing);
    hide IsMatrix, Names, AospFile, VendorFile, PutAll, Movers, Alias;
    if n :| AospStays(base, movers, n) && !IsMatrix(n) && x in Kept(AospFile(a, v, n)) {
      StaysSomewhere(base, vend, v.Keys, listing, n);
    } else {
      var n :| VendorStays(base, vend, movers, n) && !IsMatrix(n) && x in Kept(VendorFile(a, v, n));
      StaysSomewhere(base, vend, v.Keys, listing, n);
      AliasNames(n, n);
    }
  }

  /** Every HAL that is left in some file is in one that is not overwritten. */
  ghost predicate NothingLost(a: Stage, v: Stage, movers: set<string>) {
    forall x :: AospKeeps(a, v, x) || VendorKeeps(a, v, x) ==> AospHas(a, v, movers, x) || VendorHas(a, v, movers, x)
  }

  /** For any two stages and any listing: the HALs that survive are those of either
      side, but for those that both the primary manifest and the vendor have, exactly
      if no manifest is stuck and no HAL is only in files that are overwritten. */
  lemma SurvivorsExactly(a: Stage, v: Stage, listing: seq<string>)
    requires Listing(v.Keys, listing)
    ensures StageNames(PutAll(Base(a, v), Vend(a, v), listing))
            == (StageNames(a) + StageNames(v)) - PrimaryNames(a, v) * StageNames(v)
       <==> !Stuck(a, v) && NothingLost(a, v, Movers(Base(a, v), Vend(a, v), listing))
  {
    var movers, out := Movers(Base(a, v), Vend(a, v), listing), PutAll(Base(a, v), Vend(a, v), listing);
    forall x ensures x in StageNames(out) <==> AospHas(a, v, movers, x) || VendorHas(a, v, movers, x) {
      if x in StageNames(out) {
        OutputTo(a, v, listing, x);
      } else if AospHas(a, v, movers, x) || VendorHas(a, v, movers, x) {
        OutputFrom(a, v, listing, x);
      }
    }
    MoversBound(Base(a, v), Vend(a, v), listing, Manifest());
    hide PutAll, Movers;
    SurvivorsFrom(a, v, movers, StageNames(out));
  }

  lemma SurvivorsFrom(a: Stage, v: Stage, movers: set<string>, names: set<string>)
    requires forall x :: x in names <==> AospHas(a, v, movers, x) || VendorHas(a, v, movers, x)
    requires MustMove(Base(a, v), Vend(a, v), Manifest()) ==> Manifest() in movers
    ensures names == (StageNames(a) + StageNames(v)) - PrimaryNames(a, v) * StageNames(v)
       <==> !Stuck(a, v) && NothingLost(a, v, movers)
  {
    if Stuck(a, v) {
      StuckSurvives(a, v, movers);
    } else {
      RootsNoMatrix();
      forall x
        ensures AospKeeps(a, v, x) || VendorKeeps(a, v, x)
           <==> x in (StageNames(a) + StageNames(v)) - PrimaryNames(a, v) * StageNames(v)
        ensures AospHas(a, v, movers, x) || VendorHas(a, v, movers, x) ==> AospKeeps(a, v, x) || VendorKeeps(a, v, x)
      {
        KeptNames(a, v, x);
        HasKept(a, v, movers, x);
      }
      hide AospKeeps, VendorKeeps, AospHas, VendorHas, StageNames, PrimaryNames;
    }
  }

  lemma HasKept(a: Stage, v: Stage, movers: set<string>, x: string)
    ensures AospHas(a, v, movers, x) ==> AospKeeps(a, v, x)
    ensures VendorHas(a, v, movers, x) ==> VendorKeeps(a, v, x)
  {
    hide IsMatrix, AospFile, VendorFile, Kept;
  }

  lemma KeptNames(a: Stage, v: Stage, x: string)
    requires !Stuck(a, v)
    ensures AospKeeps(a, v, x) || VendorKeeps(a, v, x)
       <==> x in (StageNames(a) + StageNames(v)) - PrimaryNames(a, v) * StageNames(v)
  {
    RootsNoMatrix();
    AospNames(a, v, x);
    VendorNames(a, v, x);
    hide AospKeeps, VendorKeeps;
  }

  /** Nothing is ever put in the place of a manifest. */
  lemma ManifestStays(a: Stage, v: Stage, movers: set<string>)
    requires MustMove(Base(a, v), Vend(a, v), Manifest()) ==> Manifest() in movers
    ensures Manifest() in a ==> AospStays(Base(a, v), movers, Manifest())
    ensures Manifest() in v ==> VendorStays(Base(a, v), Vend(a, v), movers, Manifest())
  {
    forall p ensures Alias(p) != Manifest() { AliasNames(p, p); }
    RootsNoMatrix();
    hide IsMatrix, Alias, Manifest;
  }

  lemma StuckSurvives(a: Stage, v: Stage, movers: set<string>)
    requires Stuck(a, v) && (MustMove(Base(a, v), Vend(a, v), Manifest()) ==> Manifest() in movers)
    ensures exists x :: x in PrimaryNames(a, v) * StageNames(v)
                        && (AospHas(a, v, movers, x) || VendorHas(a, v, movers, x))
  {
    RootsNoMatrix();
    ManifestStays(a, v, movers);
    var m := Manifest();
    hide IsMatrix, Manifest, AospStays, VendorStays, MustMove;
    if m in a && Emptied(a[m], StageNames(v)) {
      ProcessedNames(m, m, a[m], StageNames(v));
      var x :| x in Names(a[m]);
      assert AospTargets(a, v, m) == StageNames(v);
      hide Processed, Names, Emptied;
      assert AospHas(a, v, movers, x) by { assert x in Kept(AospFile(a, v, m)); }
      assert x in PrimaryNames(a, v) * StageNames(v);
    } else {
      ProcessedNames(m, m, v[m], PrimaryNames(a, v));
      var x :| x in Names(v[m]);
      hide Processed, Names, Emptied, PrimaryNames;
      assert VendorHas(a, v, movers, x) by { assert x in Kept(VendorFile(a, v, m)); }
      assert x in StageNames(v);
      assert x in PrimaryNames(a, v) * StageNames(v);
    }
  }

  /** No HAL is left in files of both sides. */
  lemma OriginsDisjoint(a: Stage, v: Stage, x: string)
    requires !Stuck(a, v)
    ensures !(AospKeeps(a, v, x) && VendorKeeps(a, v, x))
  {
    AospNames(a, v, x);
    VendorNames(a, v, x);
  }

  /** Without collisions nothing is overwritten. */
  lemma NoCollisionsNothingLost(a: Stage, v: Stage, listing: seq<string>)
    requires NoCollisions(a, v) && Listing(v.Keys, listing)
    ensures NothingLost(a, v, Movers(Base(a, v), Vend(a, v), listing))
  {
    var base, vend := Base(a, v), Vend(a, v);
    var movers := Movers(base, vend, listing);
    forall p | p in movers ensures p in a && p in v && !IsMatrix(p) {
      MoversBound(base, vend, listing, p);
      NothingPushable(a, v, p);
    }
    forall s ensures s in v && s in base && !IsMatrix(s) && s in vend ==> s in movers {
      MoversBound(base, vend, listing, s);
    }
    hide Movers, IsMatrix, Alias, AospFile, VendorFile, Kept;
    forall x | AospKeeps(a, v, x) || VendorKeeps(a, v, x)
      ensures AospHas(a, v, movers, x) || VendorHas(a, v, movers, x)
    {
      if n :| n in a && !IsMatrix(n) && x in Kept(AospFile(a, v, n)) {
        KeptSome(AospFile(a, v, n));
        assert AospStays(base, movers, n);
      } else {
        var n :| n in v && !IsMatrix(n) && x in Kept(VendorFile(a, v, n));
        KeptSome(VendorFile(a, v, n));
        assert VendorStays(base, vend, movers, n);
      }
    }
  }

  // ----- which names survive in every order -----

  ghost predicate AospAt(a: Stage, v: Stage, n: string, x: string) {
    n in a && !IsMatrix(n) && x in Kept(AospFile(a, v, n))
  }

  ghost predicate VendorAt(a: Stage, v: Stage, n: string, x: string) {
    n in v && !IsMatrix(n) && x in Kept(VendorFile(a, v, n))
  }

  /** A HAL in a file that nothing is put over, or in two files of which the second
      is overwritten only after the first has moved to a place of its own. */
  ghost predicate Safe(a: Stage, v: Stage, x: string) {
    var base, vend := Base(a, v), Vend(a, v);
    || (exists n :: AospAt(a, v, n, x) && !AtRisk(base, vend, n))
    || (exists n :: VendorAt(a, v, n, x) && !Pushable(base, vend, n))
    || (exists n, m :: VendorAt(a, v, n, x) && (AospAt(a, v, m, x) || VendorAt(a, v, m, x)) && Leads(base, vend, n, m))
  }

  ghost predicate AllSafe(a: Stage, v: Stage) {
    forall x :: AospKeeps(a, v, x) || VendorKeeps(a, v, x) ==> Safe(a, v, x)
  }

  lemma AtStaged(a: Stage, v: Stage, n: string, x: string)
    ensures AospAt(a, v, n, x) ==> n in Base(a, v)
    ensures VendorAt(a, v, n, x) ==> n in Vend(a, v)
  {
    hide IsMatrix, AospFile, VendorFile;
  }

  lemma AospAtHas(a: Stage, v: Stage, movers: set<string>, n: string, x: string)
    requires AospAt(a, v, n, x) && !Covered(movers, n)
    ensures AospHas(a, v, movers, x)
  {
    AtStaged(a, v, n, x);
    hide IsMatrix, Base, AospFile, Kept, Covered;
  }

  lemma VendorAtHas(a: Stage, v: Stage, listing: seq<string>, n: string, x: string)
    requires Listing(v.Keys, listing) && VendorAt(a, v, n, x)
    requires var base, vend := Base(a, v), Vend(a, v);
             var movers := Movers(base, vend, listing);
             !Pushable(base, vend, n) || n in movers || !Covered(movers, n)
    ensures VendorHas(a, v, Movers(Base(a, v), Vend(a, v), listing), x)
  {
    var base, vend := Base(a, v), Vend(a, v);
    var movers := Movers(base, vend, listing);
    AtStaged(a, v, n, x);
    hide Base, Vend, Movers, VendorFile, Kept, IsMatrix, Covered;
    assert VendorStays(base, vend, movers, n) by {
      if !Pushable(base, vend, n) {
        UnpushedStays(base, vend, listing, n);
      } else if n !in movers {
        assert n !in base;
      }
    }
  }

  lemma SafeHas(a: Stage, v: Stage, listing: seq<string>, x: string)
    requires Listing(v.Keys, listing) && Safe(a, v, x)
    ensures var movers := Movers(Base(a, v), Vend(a, v), listing);
            AospHas(a, v, movers, x) || VendorHas(a, v, movers, x)
  {
    var base, vend := Base(a, v), Vend(a, v);
    var movers := Movers(base, vend, listing);
    hide Base, Vend, Movers, Pushable, AtRisk, Leads, AospAt, VendorAt, AospHas, VendorHas, Listing;
    if n :| AospAt(a, v, n, x) && !AtRisk(base, vend, n) {
      NeverCovered(base, vend, listing, n);
      AospAtHas(a, v, movers, n, x);
    } else if n :| VendorAt(a, v, n, x) && !Pushable(base, vend, n) {
      VendorAtHas(a, v, listing, n, x);
    } else {
      var n, m :|
        VendorAt(a, v, n, x) && (AospAt(a, v, m, x) || VendorAt(a, v, m, x)) && Leads(base, vend, n, m);
      if n in movers {
        VendorAtHas(a, v, listing, n, x);
      } else {
        LeadsStops(base, vend, listing, n, m);
        if AospAt(a, v, m, x) { AospAtHas(a, v, movers, m, x); } else { VendorAtHas(a, v, listing, m, x); }
      }
    }
  }

  /** A HAL that is not safe is lost if the vendor files that have it come first, and
      the others with the shortest names first. */
  lemma UnsafeLost(a: Stage, v: Stage, x: string) returns (listing: seq<string>)
    requires !Safe(a, v, x)
    ensures Listing(v.Keys, listing)
    ensures var movers := Movers(Base(a, v), Vend(a, v), listing);
            !AospHas(a, v, movers, x) && !VendorHas(a, v, movers, x)
  {
    var base, vend := Base(a, v), Vend(a, v);
    var first := set n | n in v && VendorAt(a, v, n, x);
    var front, rest := SplitListing(v.Keys, first);
    listing := front + rest;
    var movers := Movers(base, vend, listing);
    assert rest[..|rest|] == rest;
    forall f | f in front ensures Pushable(base, vend, f) && f !in base {
      assert VendorAt(a, v, f, x);
    }
    FrontStays(base, vend, v.Keys, front, rest, |rest|);
    BaseIn(a, v);
    forall n | AospAt(a, v, n, x) || VendorAt(a, v, n, x) ensures Covered(movers, n) {
      hide Ascending, Movers, Listing, Pushable, Leads, AospAt, Covered;
      UnsafeAtRisk(a, v, n, x);
      assert Clear(base, vend, front, n);
      RiskTaken(base, vend, v.Keys, front, rest, n);
    }
    hide Listing, Ascending, Movers, Covered;
    LostIf(a, v, movers, x);
  }

  lemma UnsafeAtRisk(a: Stage, v: Stage, n: string, x: string)
    requires !Safe(a, v, x) && (AospAt(a, v, n, x) || VendorAt(a, v, n, x))
    ensures AtRisk(Base(a, v), Vend(a, v), n)
  {
    hide Leads, IsMatrix, AtRisk, Base, Vend;
    if VendorAt(a, v, n, x) {
      AtStaged(a, v, n, x);
      assert Pushable(Base(a, v), Vend(a, v), n);
      PushableAtRisk(Base(a, v), Vend(a, v), n);
    }
  }

  lemma LostIf(a: Stage, v: Stage, movers: set<string>, x: string)
    requires forall n :: AospAt(a, v, n, x) || VendorAt(a, v, n, x) ==> Covered(movers, n)
    requires forall n :: VendorAt(a, v, n, x) ==> n !in movers
    ensures !AospHas(a, v, movers, x) && !VendorHas(a, v, movers, x)
  {
    hide Covered, IsMatrix, Kept, AospFile, VendorFile;
    BaseIn(a, v);
    forall n ensures !(AospStays(Base(a, v), movers, n) && !IsMatrix(n) && x in Kept(AospFile(a, v, n))) {
      if n in a && !IsMatrix(n) && x in Kept(AospFile(a, v, n)) { assert AospAt(a, v, n, x); }
    }
    forall n
      ensures !(VendorStays(Base(a, v), Vend(a, v), movers, n) && !IsMatrix(n) && x in Kept(VendorFile(a, v, n)))
    {
      if n in v && !IsMatrix(n) && x in Kept(VendorFile(a, v, n)) { assert VendorAt(a, v, n, x); }
    }
  }

  /** No HAL is lost in any order exactly if each is safe. */
  lemma NeverLostExactly(a: Stage, v: Stage)
    ensures (forall listing :: Listing(v.Keys, listing) ==> NothingLost(a, v, Movers(Base(a, v), Vend(a, v), listing)))
       <==> AllSafe(a, v)
  {
    hide Listing, Movers, AospKeeps, VendorKeeps, AospHas, VendorHas, Safe;
    if AllSafe(a, v) {
      forall listing | Listing(v.Keys, listing) ensures NothingLost(a, v, Movers(Base(a, v), Vend(a, v), listing)) {
        forall x | Safe(a, v, x)
          ensures var movers := Movers(Base(a, v), Vend(a, v), listing);
                  AospHas(a, v, movers, x) || VendorHas(a, v, movers, x)
        {
          SafeHas(a, v, listing, x);
        }
      }
    } else {
      var x :| (AospKeeps(a, v, x) || VendorKeeps(a, v, x)) && !Safe(a, v, x);
      var listing := UnsafeLost(a, v, x);
    }
  }

  /** For any two stages: the HALs that survive are the expected ones in every order
      exactly if no manifest is stuck and every HAL that is left is safe. */
  lemma SurvivorsInEveryOrder(a: Stage, v: Stage)
    ensures (forall listing :: Listing(v.Keys, listing) ==>
               StageNames(PutAll(Base(a, v), Vend(a, v), listing))
               == (StageNames(a) + StageNames(v)) - PrimaryNames(a, v) * StageNames(v))
       <==> !Stuck(a, v) && AllSafe(a, v)
  {
    NeverLostExactly(a, v);
    var some := SortedListing(v.Keys);
    forall listing | Listing(v.Keys, listing)
      ensures StageNames(PutAll(Base(a, v), Vend(a, v), listing))
              == (StageNames(a) + StageNames(v)) - PrimaryNames(a, v) * StageNames(v)
         <==> !Stuck(a, v) && NothingLost(a, v, Movers(Base(a, v), Vend(a, v), listing))
    {
      SurvivorsExactly(a, v, listing);
    }
    hide StageNames, PutAll, Base, Vend, PrimaryNames, Stuck, NothingLost, Movers, AllSafe, Listing;
  }

  lemma KeptSome(file: Option<Doc>)
    ensures Kept(file) != {} ==> file.Some?
  {}

  // ----- what collisions do -----

  /** A document without HALs is staged as it is. */
  lemma PlainFile(name: string, d: Doc, targets: set<string>)
    requires d.hals == []
    ensures Processed(name, name, d, targets) == Some(d)
  {
    assert Inject(name, d).hals == [];
    assert Names(d) == {};
  }

  lemma ShortName() returns (f: string)
    ensures !IsMatrix(f) && !IsMatrix(Alias(f)) && f != Manifest() && Alias(f) != Manifest()
    ensures Alias(f) == Override(f) && Alias(Alias(f)) != f && Alias(Alias(f)) != Alias(f) && f != Alias(f)
  {
    f := "f";
    assert |f| == 1;
    AliasNames(f, f);
    AliasNames(Alias(f), f);
  }

  lemma PlainStages(a: Stage, v: Stage)
    requires forall n <- a :: a[n].hals == []
    requires forall n <- v :: v[n].hals == []
    ensures Base(a, v) == a && Vend(a, v) == v
  {
    forall n | n in a ensures AospFile(a, v, n) == Some(a[n]) { PlainFile(n, a[n], AospTargets(a, v, n)); }
    forall n | n in v ensures VendorFile(a, v, n) == Some(v[n]) { PlainFile(n, v[n], PrimaryNames(a, v)); }
    hide AospFile, VendorFile;
  }

  /** A clash with AOSP, and a vendor file that has the name the other one is given:
      the order of the listing shows. */
  lemma OrderMatters() returns (a: Stage, v: Stage)
    ensures !OrderFree(Base(a, v), Vend(a, v), v.Keys)
  {
    var f := ShortName();
    var o, d := Alias(f), Doc("manifest", "device", []);
    a, v := map[f := d], map[f := d, o := d];
    PlainStages(a, v);
    ClashPushes(a, v, f, d);
    hide *;
    OrderIndependentExactly(a, v);
  }

  lemma OneHal(a: Stage, v: Stage, f: string, o: string, d: Doc, y: Doc)
    requires f != o && d.hals == [] && y.hals == [Hal(Some("y"), false, false)]
    requires !IsMatrix(f) && !IsMatrix(o) && f != Manifest() && o != Manifest()
    requires a == map[f := d, o := y] && v == map[f := d]
    ensures !Stuck(a, v) && f in Base(a, v) && f in Vend(a, v)
    ensures "y" in Kept(AospFile(a, v, o)) && "y" !in Kept(AospFile(a, v, f)) && "y" !in Kept(VendorFile(a, v, f))
  {
    assert Names(d) == {} && StageNames(v) == {} && PrimaryNames(a, v) == {};
    PlainFile(f, d, AospTargets(a, v, f));
    PlainFile(f, d, PrimaryNames(a, v));
    ProcessedNames(o, o, y, {});
    assert y.hals[0] in y.hals && "y" in Names(y);
    assert AospTargets(a, v, o) == {};
    hide Processed, IsMatrix, Manifest, Names, PrimaryNames, AospTargets, StageNames;
  }

  /** A clash with AOSP, and an AOSP file that has the name the other one is given:
      its HAL is lost in every order, although no manifest is stuck. */
  lemma ClashLoses() returns (a: Stage, v: Stage, listing: seq<string>)
    ensures Listing(v.Keys, listing) && !Stuck(a, v)
    ensures !NothingLost(a, v, Movers(Base(a, v), Vend(a, v), listing))
  {
    var f := ShortName();
    var o, d, y := Alias(f), Doc("manifest", "device", []), Doc("manifest", "device", [Hal(Some("y"), false, false)]);
    a, v, listing := map[f := d, o := y], map[f := d], [f];
    OneHal(a, v, f, o, d, y);
    OneMover(Base(a, v), Vend(a, v), f);
    hide IsMatrix, Alias, Manifest, AospFile, VendorFile, Kept, Movers, Stuck, Base, Vend;
    assert AospKeeps(a, v, "y");
    assert !AospHas(a, v, {f}, "y") by { BaseIn(a, v); }
    assert !VendorHas(a, v, {f}, "y") by { BaseIn(a, v); }
  }

  lemma BaseIn(a: Stage, v: Stage)
    ensures Base(a, v).Keys <= a.Keys && Vend(a, v).Keys <= v.Keys
  {}

  // ----- the names, told from the documents -----

  ghost predicate HasHal(d: Doc, x: string) { exists h :: h in d.hals && h.name == Some(x) }

  /** A file of the stage that is no matrix has the HAL. */
  ghost predicate StageHas(s: Stage, x: string) {
    exists n :: n in s && !Contains(n, "compatibility_matrix") && HasHal(s[n], x)
  }

  /** The primary manifest is that of AOSP, or of the vendor if AOSP has none. */
  ghost predicate PrimaryHas(a: Stage, v: Stage, x: string) {
    if "manifest" in a then HasHal(a["manifest"], x) else "manifest" in v && HasHal(v["manifest"], x)
  }

  lemma NamesExactly(a: Stage, v: Stage, x: string)
    ensures forall s: Stage :: x in StageNames(s) <==> StageHas(s, x)
    ensures x in PrimaryNames(a, v) <==> PrimaryHas(a, v, x)
  {
    forall d: Doc ensures x in Names(d) <==> HasHal(d, x) {
      if HasHal(d, x) {
        var h :| h in d.hals && h.name == Some(x);
        assert h.name.value == x;
      }
    }
    hide Names, HasHal, Contains;
  }

  /** The same theorem in these words: a HAL survives if some file has it, unless both
      the primary manifest and the vendor have it. */
  lemma SurvivorsSpelled(a: Stage, v: Stage, listing: seq<string>)
    requires Listing(v.Keys, listing)
    ensures (forall x :: StageHas(PutAll(Base(a, v), Vend(a, v), listing), x) <==>
               (StageHas(a, x) || StageHas(v, x)) && !(PrimaryHas(a, v, x) && StageHas(v, x)))
       <==> !Stuck(a, v) && NothingLost(a, v, Movers(Base(a, v), Vend(a, v), listing))
  {
    SurvivorsExactly(a, v, listing);
    var out := PutAll(Base(a, v), Vend(a, v), listing);
    forall x
      ensures x in StageNames(out) <==> StageHas(out, x)
      ensures x in (StageNames(a) + StageNames(v)) - PrimaryNames(a, v) * StageNames(v)
         <==> (StageHas(a, x) || StageHas(v, x)) && !(PrimaryHas(a, v, x) && StageHas(v, x))
    {
      NamesExactly(a, v, x);
      hide StageNames, StageHas, PrimaryNames, PrimaryHas;
    }
    hide StageNames, StageHas, PrimaryNames, PrimaryHas, PutAll, Base, Vend, Movers, NothingLost, Stuck;
  }

  // ----- the attributes of the staged HALs -----

  /** A HAL as the merge leaves it: in a matrix it is optional, elsewhere it
      overrides; the other attribute is as it was. */
  predicate Permissive(source: Hal, staged: Hal, matrix: bool) {
    && staged.name == source.name
    && if matrix then staged.optional && staged.overriding == source.overriding
       else staged.overriding && staged.optional == source.optional
  }

  /** `picks` tells which HALs of the source file are left, in their order. */
  ghost predicate Picked(picks: seq<nat>, source: seq<Hal>, staged: seq<Hal>, matrix: bool) {
    && |picks| == |staged|
    && (forall i, j :: 0 <= i < j < |picks| ==> picks[i] < picks[j])
    && forall i :: 0 <= i < |picks| ==> picks[i] < |source| && Permissive(source[picks[i]], staged[i], matrix)
  }

  /** The file `staged` under the name `n` is the file `source`, possibly without
      some HALs. */
  ghost predicate StagedFrom(n: string, source: Doc, staged: Doc) {
    && staged.tag == source.tag && staged.kind == source.kind
    && var matrix := Contains(staged.tag, "compatibility_matrix") || Contains(n, "compatibility_matrix");
       exists picks :: Picked(picks, source.hals, staged.hals, matrix)
                       && (Contains(n, "compatibility_matrix") ==> |picks| == |source.hals|)
  }

  /** A staged file is an AOSP or a vendor file of that name, or a vendor file that
      was renamed to it. */
  ghost predicate HasSource(a: Stage, v: Stage, n: string, staged: Doc) {
    || (n in a && StagedFrom(n, a[n], staged))
    || (n in v && StagedFrom(n, v[n], staged))
    || (n == "manifest_vendor_root" && "manifest" in v && StagedFrom(n, v["manifest"], staged))
    || exists p :: p in v && p != "manifest" && n == p + "_vendor_override" && StagedFrom(n, v[p], staged)
  }

  lemma {:induction false} SparedPicks(hals: seq<Hal>, targets: set<string>) returns (picks: seq<nat>)
    ensures |picks| == |Spared(hals, targets)| && |picks| <= |hals|
    ensures forall i, j :: 0 <= i < j < |picks| ==> picks[i] < picks[j]
    ensures forall i :: 0 <= i < |picks| ==> picks[i] < |hals| && hals[picks[i]] == Spared(hals, targets)[i]
    decreases |hals|
  {
    picks := [];
    if hals != [] {
      var n := |hals| - 1;
      var spared := Spared(hals[..n], targets);
      assert Spared(hals, targets) == spared + if Targeted(hals[n], targets) then [] else [hals[n]];
      hide Spared, Targeted;
      picks := SparedPicks(hals[..n], targets);
      assert forall i :: 0 <= i < |picks| ==> hals[..n][picks[i]] == hals[picks[i]];
      if !Targeted(hals[n], targets) { picks := picks + [n]; }
    }
  }

  lemma InjectStaged(n: string, dest: string, source: Doc, d: Doc, picks: seq<nat>)
    requires d == source.(hals := d.hals) && |picks| == |d.hals|
    requires forall i, j :: 0 <= i < j < |picks| ==> picks[i] < picks[j]
    requires forall i :: 0 <= i < |picks| ==> picks[i] < |source.hals| && source.hals[picks[i]] == d.hals[i]
    requires IsMatrix(n) <==> IsMatrix(dest)
    requires IsMatrix(dest) ==> |picks| == |source.hals|
    ensures StagedFrom(dest, source, Inject(n, d))
  {
    var out := Inject(n, d);
    assert Matrix() == "compatibility_matrix";
    var matrix := IsMatrix(d.tag) || IsMatrix(n);
    forall i | 0 <= i < |picks| ensures Permissive(source.hals[picks[i]], out.hals[i], matrix) {}
    hide Contains;
    assert Picked(picks, source.hals, out.hals, matrix);
  }

  lemma ProcessedStaged(name: string, dest: string, source: Doc, targets: set<string>)
    requires Processed(name, name, source, targets).Some? && (IsMatrix(name) <==> IsMatrix(dest))
    ensures StagedFrom(dest, source, Processed(name, name, source, targets).value)
  {
    hide IsMatrix, Inject, StagedFrom, Skipped, Emptied;
    if IsMatrix(name) || Emptied(source, targets) {
      var picks := seq(|source.hals|, i requires 0 <= i < |source.hals| => i);
      InjectStaged(name, dest, source, source, picks);
    } else {
      var picks := SparedPicks(source.hals, targets);
      InjectStaged(name, dest, source, Cleaned(source, targets), picks);
    }
  }

  /** Where the staged files come from, and what becomes of their HALs. */
  lemma StagedHals(a: Stage, v: Stage, listing: seq<string>, n: string)
    requires Listing(v.Keys, listing) && n in PutAll(Base(a, v), Vend(a, v), listing)
    ensures HasSource(a, v, n, PutAll(Base(a, v), Vend(a, v), listing)[n])
  {
    var base, vend := Base(a, v), Vend(a, v);
    var out, movers := PutAll(base, vend, listing), Movers(base, vend, listing);
    StaysOnly(base, vend, v.Keys, listing, n, out[n]);
    ShapeOf(base, vend, v.Keys, listing);
    hide IsMatrix, PutAll, Movers, Shape, Processed, StagedFrom, Covered;
    if AospStays(base, movers, n) && base[n] == out[n] {
      ProcessedStaged(n, n, a[n], AospTargets(a, v, n));
    } else if VendorStays(base, vend, movers, n) && n !in movers && vend[n] == out[n] {
      ProcessedStaged(n, n, v[n], PrimaryNames(a, v));
    } else {
      var s :| s in movers && Alias(s) == n && VendorStays(base, vend, movers, s) && vend[s] == out[n];
      AliasNames(s, s);
      ProcessedStaged(s, n, v[s], PrimaryNames(a, v));
      assert n == if s == "manifest" then "manifest_vendor_root" else s + "_vendor_override";
    }
  }

  // ----- the split by type -----

  /** `separate_by_type` */
  method SeparateByType(stage: Stage, paths: seq<string>) returns (device: seq<string>, framework: seq<string>)
    requires forall n <- paths :: n in stage
    ensures multiset(device) + multiset(framework) == multiset(paths)
    ensures forall n <- device :: n in stage && stage[n].kind != "framework"
    ensures forall n <- framework :: n in stage && stage[n].kind == "framework"
  {
    device, framework := [], [];
    for i := 0 to |paths|
      invariant multiset(device) + multiset(framework) == multiset(paths[..i])
      invariant forall n <- device :: n in stage && stage[n].kind != "framework"
      invariant forall n <- framework :: n in stage && stage[n].kind == "framework"
    {
      assert paths[..i + 1] == paths[..i] + [paths[i]];
      if stage[paths[i]].kind == "framework" {
        framework := framework + [paths[i]];
      } else {
        device := device + [paths[i]];
      }
    }
    assert paths[..|paths|] == paths;
  }
}
