/** aosp_vintf_handler.py: where the vendor files go. A file whose name is taken is
    put under another name, whether that is taken or not; what is there already may
    be overwritten. Files are of any type here. */
module Staging {
  import opened Options
  import opened Text

  // ----- file names -----

  function Manifest(): string { "manifest" }

  function ManifestRoot(): string { "manifest_vendor_root" }

  function Override(stem: string): string { stem + "_vendor_override" }

  function Matrix(): string { "compatibility_matrix" }

  /** `"compatibility_matrix" in name` */
  predicate IsMatrix(name: string) { Contains(name, Matrix()) }

  lemma OverrideNames(s: string, t: string)
    ensures Override(s) == Override(t) ==> s == t
    ensures Override(s) != ManifestRoot() && Override(s) != Manifest() && ManifestRoot() != Manifest()
    ensures Override(s) != s
  {
    var w := "_vendor_override";
    assert Override(s)[|Override(s)| - 1] == w[15];
    if Override(s) == Override(t) {
      assert s == Override(s)[..|s|] && t == Override(t)[..|t|];
    }
  }

  lemma MatrixChars(j: int)
    ensures 0 <= j < 20 ==> !(Matrix()[j] == '_' && (j == 19 || Matrix()[j + 1] == 'v'))
  {}

  lemma OverrideMatrix(s: string)
    ensures IsMatrix(Override(s)) ==> IsMatrix(s)
  {
    var w, o := "_vendor_override", Override(s);
    if IsMatrix(o) {
      var i := ContainsWhere(o, Matrix());
      assert forall t :: 0 <= t < 20 ==> Matrix()[t] == o[i..i + 20][t] == o[i + t];
      assert o[|s|] == w[0] && o[|s| + 1] == w[1];
      MatrixChars(|s| - i);
      assert i + 20 <= |s|;
      assert s[i..i + 20] == o[i..i + 20];
      ContainsAt(s, Matrix(), i);
    }
  }

  lemma RootsNoMatrix()
    ensures !IsMatrix(Manifest()) && !IsMatrix(ManifestRoot())
  {
    var m, r := Matrix(), ManifestRoot();
    assert |r| == |m| && m[0] != r[0];
    assert r[..20] == r;
  }

  /** The name a manifest or fragment gets when its own is taken. */
  function Alias(name: string): string { if name == Manifest() then ManifestRoot() else Override(name) }

  lemma AliasNames(s: string, t: string)
    ensures Alias(s) == Alias(t) ==> s == t
    ensures Alias(s) != Manifest() && Alias(s) != s && |Alias(s)| > |s|
    ensures IsMatrix(Alias(s)) ==> IsMatrix(s)
  {
    OverrideNames(s, t);
    OverrideNames(t, s);
    OverrideMatrix(s);
    RootsNoMatrix();
    hide IsMatrix;
    assert |Override(s)| == |s| + 16;
  }

  // ----- the loop over the vendor files -----

  /** One turn: `vend` holds the vendor files that are to be staged. */
  function Put<D>(out: map<string, D>, vend: map<string, D>, s: string): map<string, D> {
    if s !in vend then out
    else if s !in out then out[s := vend[s]]
    else if IsMatrix(s) then out
    else out[Alias(s) := vend[s]]
  }

  function PutAll<D>(out: map<string, D>, vend: map<string, D>, listing: seq<string>): map<string, D> {
    if listing == [] then out else Put(PutAll(out, vend, listing[..|listing| - 1]), vend, listing[|listing| - 1])
  }

  ghost predicate Has<D>(files: map<string, D>, n: string, d: D) { n in files && files[n] == d }

  /** A file was put under this name because its own was taken. */
  ghost predicate Covered(movers: set<string>, n: string) { exists p :: p in movers && Alias(p) == n }

  /** One turn: `s` is moved if its name is taken. */
  ghost function Moved<D>(base: map<string, D>, vend: map<string, D>, movers: set<string>, s: string): set<string> {
    if s in vend && !IsMatrix(s) && (s in base || Covered(movers, s)) then movers + {s} else movers
  }

  /** The files that find their name taken, in a given order. */
  ghost function Movers<D>(base: map<string, D>, vend: map<string, D>, listing: seq<string>): set<string> {
    if listing == [] then {}
    else Moved(base, vend, Movers(base, vend, listing[..|listing| - 1]), listing[|listing| - 1])
  }

  /** What is under a name, once the files `done` have been put. */
  ghost predicate Placed<D>(base: map<string, D>, vend: map<string, D>, movers: set<string>, done: set<string>,
                            n: string, d: D)
  {
    if Covered(movers, n) then exists p :: p in movers && Alias(p) == n && p in vend && vend[p] == d
    else if n in base then base[n] == d
    else n in done && n in vend && vend[n] == d
  }

  ghost predicate Shape<D(!new)>(out: map<string, D>, base: map<string, D>, vend: map<string, D>, movers: set<string>,
                                 done: set<string>)
  {
    forall n, d :: Has(out, n, d) <==> Placed(base, vend, movers, done, n, d)
  }

  /** Movers are done, and no matrices. */
  ghost predicate Proper<D>(vend: map<string, D>, movers: set<string>, done: set<string>) {
    forall p <- movers :: p in done && p in vend && !IsMatrix(p)
  }

  /** A name is taken exactly if AOSP has a file of that name or one was put there. */
  lemma TakenExactly<D(!new)>(out: map<string, D>, base: map<string, D>, vend: map<string, D>, movers: set<string>,
                              done: set<string>, s: string)
    requires Shape(out, base, vend, movers, done) && Proper(vend, movers, done) && s !in done
    ensures s in out <==> s in base || Covered(movers, s)
  {
    if Covered(movers, s) {
      var p :| p in movers && Alias(p) == s;
      assert Placed(base, vend, movers, done, s, vend[p]);
      assert Has(out, s, vend[p]);
    } else if s in base {
      assert Placed(base, vend, movers, done, s, base[s]);
      assert Has(out, s, base[s]);
    }
    assert s in out ==> Has(out, s, out[s]);
  }

  lemma CoveredMore(movers: set<string>, s: string, n: string)
    ensures Covered(movers + {s}, n) <==> Covered(movers, n) || Alias(s) == n
  {
    hide Alias;
    if Alias(s) == n { assert s in movers + {s}; }
  }

  /** Putting a file under its own name. */
  lemma PutOwn<D(!new)>(base: map<string, D>, vend: map<string, D>, movers: set<string>, done: set<string>, s: string,
                        n: string, d: D)
    requires s in vend && s !in base && !Covered(movers, s)
    ensures Placed(base, vend, movers, done + {s}, n, d) <==>
            if n == s then d == vend[s] else Placed(base, vend, movers, done, n, d)
  {
    hide Alias;
  }

  /** A file that goes nowhere, or elsewhere, leaves its name as it was. */
  lemma PutNothing<D(!new)>(base: map<string, D>, vend: map<string, D>, movers: set<string>, done: set<string>,
                            s: string, n: string, d: D)
    requires s !in vend || s in base || Covered(movers, s)
    ensures Placed(base, vend, movers, done + {s}, n, d) <==> Placed(base, vend, movers, done, n, d)
  {
    hide Alias;
  }

  lemma PutAlias<D(!new)>(base: map<string, D>, vend: map<string, D>, movers: set<string>, done: set<string>, s: string,
                          n: string, d: D)
    requires s in vend && s !in movers
    ensures Placed(base, vend, movers + {s}, done, n, d) <==>
            if n == Alias(s) then d == vend[s] else Placed(base, vend, movers, done, n, d)
  {
    CoveredMore(movers, s, n);
    forall p ensures Alias(p) == Alias(s) ==> p == s { AliasNames(p, s); }
    hide Alias;
    if n == Alias(s) { assert s in movers + {s}; }
  }

  lemma MatrixUncovered<D>(vend: map<string, D>, movers: set<string>, done: set<string>, s: string)
    requires Proper(vend, movers, done) && IsMatrix(s)
    ensures !Covered(movers, s)
  {
    hide IsMatrix;
    if p :| p in movers && Alias(p) == s { AliasNames(p, p); }
  }

  lemma PutStep<D(!new)>(out: map<string, D>, base: map<string, D>, vend: map<string, D>, movers: set<string>,
                         done: set<string>, s: string)
    requires Shape(out, base, vend, movers, done) && Proper(vend, movers, done) && s !in done
    ensures var movers' := Moved(base, vend, movers, s);
            Shape(Put(out, vend, s), base, vend, movers', done + {s}) && Proper(vend, movers', done + {s})
  {
    TakenExactly(out, base, vend, movers, done, s);
    if IsMatrix(s) { MatrixUncovered(vend, movers, done, s); }
    var movers' := Moved(base, vend, movers, s);
    var next := Put(out, vend, s);
    hide IsMatrix, Alias;
    forall n, d ensures Has(next, n, d) <==> Placed(base, vend, movers', done + {s}, n, d) {
      assert Has(out, n, d) <==> Placed(base, vend, movers, done, n, d);
      hide Shape, Covered;
      if s in vend && s !in out {
        PutOwn(base, vend, movers, done, s, n, d);
      } else {
        PutNothing(base, vend, movers, done, s, n, d);
        if movers' != movers { PutAlias(base, vend, movers, done + {s}, s, n, d); }
      }
      hide Placed;
    }
  }

  ghost predicate Listing(keys: set<string>, names: seq<string>) {
    && (forall n :: n in names <==> n in keys)
    && forall i, j :: 0 <= i < j < |names| ==> names[i] != names[j]
  }

  function Upto(names: seq<string>, i: nat): set<string>
    requires i <= |names|
  { set n | n in names[..i] }

  lemma UptoNext(names: seq<string>, i: nat)
    requires i < |names| && forall j, k :: 0 <= j < k < |names| ==> names[j] != names[k]
    ensures names[i] !in Upto(names, i) && Upto(names, i + 1) == Upto(names, i) + {names[i]}
  {
    assert names[..i + 1] == names[..i] + [names[i]];
  }

  lemma UptoEnds(keys: set<string>, names: seq<string>)
    requires Listing(keys, names)
    ensures Upto(names, 0) == {} && Upto(names, |names|) == keys
  {
    assert names[..|names|] == names;
  }

  lemma {:induction false} ShapeUpto<D(!new)>(base: map<string, D>, vend: map<string, D>, keys: set<string>,
                                              listing: seq<string>, i: nat)
    requires Listing(keys, listing) && i <= |listing|
    ensures Shape(PutAll(base, vend, listing[..i]), base, vend, Movers(base, vend, listing[..i]), Upto(listing, i))
    ensures Proper(vend, Movers(base, vend, listing[..i]), Upto(listing, i))
    decreases i
  {
    if i == 0 {
      assert !exists n :: Covered({}, n);
    } else {
      ShapeUpto(base, vend, keys, listing, i - 1);
      UptoNext(listing, i - 1);
      assert listing[..i][..i - 1] == listing[..i - 1];
      hide Shape, Proper, Put, IsMatrix, Covered;
      PutStep(PutAll(base, vend, listing[..i - 1]), base, vend, Movers(base, vend, listing[..i - 1]),
              Upto(listing, i - 1), listing[i - 1]);
    }
  }

  /** The staged files, for any order: whatever was moved is under its other name,
      and the rest under its own unless something was moved there. */
  lemma ShapeOf<D(!new)>(base: map<string, D>, vend: map<string, D>, keys: set<string>, listing: seq<string>)
    requires Listing(keys, listing)
    ensures Shape(PutAll(base, vend, listing), base, vend, Movers(base, vend, listing), keys)
    ensures Proper(vend, Movers(base, vend, listing), keys)
  {
    ShapeUpto(base, vend, keys, listing, |listing|);
    UptoEnds(keys, listing);
    assert listing[..|listing|] == listing;
  }

  // ----- when the order does not matter -----

  /** A file that finds its name taken by AOSP, in every order. */
  ghost predicate MustMove<D>(base: map<string, D>, vend: map<string, D>, s: string) {
    s in vend && !IsMatrix(s) && s in base
  }

  /** A file whose name is free, unless one that moves there comes first. */
  ghost predicate Pushable<D>(base: map<string, D>, vend: map<string, D>, s: string)
    decreases |s|
  {
    && s in vend && !IsMatrix(s) && s !in base
    && exists p :: |p| < |s| && Alias(p) == s && p in vend && !IsMatrix(p) && (p in base || Pushable(base, vend, p))
  }

  /** What is under a name if nothing is moved there. */
  ghost predicate Settled<D>(base: map<string, D>, vend: map<string, D>, n: string, d: D) {
    if n in base then base[n] == d else n in vend && vend[n] == d
  }

  /** Whatever can be pushed would be put where the same file is anyway. */
  ghost predicate PushesNothing<D>(base: map<string, D>, vend: map<string, D>) {
    forall c :: Pushable(base, vend, c) ==> Settled(base, vend, Alias(c), vend[c])
  }

  ghost predicate OrderFree<D(!new)>(base: map<string, D>, vend: map<string, D>, keys: set<string>) {
    forall l, l' :: Listing(keys, l) && Listing(keys, l') ==> PutAll(base, vend, l) == PutAll(base, vend, l')
  }

  lemma {:induction false} MoversBound<D>(base: map<string, D>, vend: map<string, D>, listing: seq<string>, s: string)
    ensures s in Movers(base, vend, listing) ==> s in listing && (MustMove(base, vend, s) || Pushable(base, vend, s))
    ensures s in listing && MustMove(base, vend, s) ==> s in Movers(base, vend, listing)
    decreases |listing|
  {
    if listing != [] {
      var before, last := listing[..|listing| - 1], listing[|listing| - 1];
      assert listing == before + [last];
      MoversBound(base, vend, before, s);
      if s == last && s in Movers(base, vend, listing) && s !in base && s !in Movers(base, vend, before) {
        var p :| p in Movers(base, vend, before) && Alias(p) == s;
        MoversBound(base, vend, before, p);
        AliasNames(p, p);
        hide IsMatrix, Alias;
      }
    }
  }

  /** What everything comes to when nothing can be pushed. */
  ghost predicate Final<D>(base: map<string, D>, vend: map<string, D>, n: string, d: D) {
    if exists p :: MustMove(base, vend, p) && Alias(p) == n
    then exists p :: MustMove(base, vend, p) && Alias(p) == n && vend[p] == d
    else Settled(base, vend, n, d)
  }

  lemma MovedThere<D>(base: map<string, D>, vend: map<string, D>, movers: set<string>, keys: set<string>,
                       p: string, d: D)
    requires p in movers && p in vend
    ensures Placed(base, vend, movers, keys, Alias(p), d) <==> vend[p] == d
  {
    forall q ensures Alias(p) == Alias(q) ==> p == q { AliasNames(p, q); }
    hide IsMatrix, Alias;
    assert Covered(movers, Alias(p));
  }

  lemma FinalMust<D>(base: map<string, D>, vend: map<string, D>, p: string, d: D)
    requires MustMove(base, vend, p)
    ensures Final(base, vend, Alias(p), d) <==> vend[p] == d
  {
    forall q ensures Alias(p) == Alias(q) ==> p == q { AliasNames(p, q); }
    hide IsMatrix, Alias, Settled;
  }

  lemma FinalPushed<D>(base: map<string, D>, vend: map<string, D>, p: string, d: D)
    requires p in vend && p !in base && Settled(base, vend, Alias(p), vend[p])
    ensures Final(base, vend, Alias(p), d) <==> vend[p] == d
  {
    forall q | MustMove(base, vend, q) ensures Alias(p) != Alias(q) { AliasNames(p, q); }
    hide IsMatrix, Alias, MustMove;
  }

  lemma FinalThere<D>(base: map<string, D>, vend: map<string, D>, p: string, d: D)
    requires PushesNothing(base, vend) && p in vend && (MustMove(base, vend, p) || Pushable(base, vend, p))
    ensures Final(base, vend, Alias(p), d) <==> vend[p] == d
  {
    hide Final, Settled, IsMatrix, Alias;
    if MustMove(base, vend, p) {
      FinalMust(base, vend, p, d);
    } else {
      FinalPushed(base, vend, p, d);
    }
  }

  lemma FinalPlaced<D>(base: map<string, D>, vend: map<string, D>, keys: set<string>, listing: seq<string>,
                       n: string, d: D)
    requires PushesNothing(base, vend) && vend.Keys <= keys && Listing(keys, listing)
    ensures Placed(base, vend, Movers(base, vend, listing), keys, n, d) <==> Final(base, vend, n, d)
  {
    var movers := Movers(base, vend, listing);
    if Covered(movers, n) {
      var p :| p in movers && Alias(p) == n;
      MoversBound(base, vend, listing, p);
      hide Movers, IsMatrix, Alias, PushesNothing, Placed, Final;
      MovedThere(base, vend, movers, keys, p, d);
      FinalThere(base, vend, p, d);
    } else {
      forall p ensures MustMove(base, vend, p) ==> p in movers { MoversBound(base, vend, listing, p); }
      hide Movers, IsMatrix, Alias, PushesNothing;
    }
  }

  lemma SameInAnyOrder<D(!new)>(base: map<string, D>, vend: map<string, D>, keys: set<string>,
                                l: seq<string>, l': seq<string>)
    requires PushesNothing(base, vend) && vend.Keys <= keys && Listing(keys, l) && Listing(keys, l')
    ensures PutAll(base, vend, l) == PutAll(base, vend, l')
  {
    ShapeOf(base, vend, keys, l);
    ShapeOf(base, vend, keys, l');
    var x, y := PutAll(base, vend, l), PutAll(base, vend, l');
    hide PutAll, Final, Placed, Has, PushesNothing, Movers;
    forall n, d ensures Has(x, n, d) <==> Has(y, n, d) {
      FinalPlaced(base, vend, keys, l, n, d);
      FinalPlaced(base, vend, keys, l', n, d);
    }
    hide Shape;
    SameMaps(x, y);
  }

  lemma SameMaps<D(!new)>(x: map<string, D>, y: map<string, D>)
    requires forall n, d :: Has(x, n, d) <==> Has(y, n, d)
    ensures x == y
  {
    forall n | n in x ensures n in y && y[n] == x[n] { assert Has(x, n, x[n]); }
    forall n | n in y ensures n in x && x[n] == y[n] { assert Has(y, n, y[n]); }
  }

  // ----- the shortest names first, or last -----

  ghost predicate Ascending(l: seq<string>) { forall i, j :: 0 <= i < j < |l| ==> |l[i]| <= |l[j]| }

  lemma {:induction false} Longest(keys: set<string>) returns (n: string)
    requires keys != {}
    ensures n in keys && forall m <- keys :: |m| <= |n|
    decreases |keys|
  {
    n :| n in keys;
    if keys - {n} != {} {
      var m := Longest(keys - {n});
      assert forall x <- keys :: x == n || x in keys - {n};
      n := if |m| > |n| then m else n;
    } else {
      assert keys == {n};
    }
  }

  lemma ListingNext(keys: set<string>, front: seq<string>, n: string)
    requires Listing(keys - {n}, front) && Ascending(front)
    requires n in keys && forall m <- keys :: |m| <= |n|
    ensures Listing(keys, front + [n]) && Ascending(front + [n])
  {
    forall i | 0 <= i < |front| ensures front[i] in keys && front[i] != n { assert front[i] in front; }
    assert forall x :: x in front + [n] <==> x in front || x == n;
  }

  lemma {:induction false} SortedListing(keys: set<string>) returns (l: seq<string>)
    ensures Listing(keys, l) && Ascending(l)
    decreases |keys|
  {
    l := [];
    if keys != {} {
      hide Listing, Ascending;
      var n := Longest(keys);
      var front := SortedListing(keys - {n});
      l := front + [n];
      ListingNext(keys, front, n);
    }
  }

  function Reverse<T>(s: seq<T>): seq<T> { seq(|s|, i requires 0 <= i < |s| => s[|s| - 1 - i]) }

  lemma ReverseListing(keys: set<string>, l: seq<string>)
    requires Listing(keys, l)
    ensures Listing(keys, Reverse(l))
  {
    var r := Reverse(l);
    forall n ensures n in r <==> n in l {
      if n in l {
        var i :| 0 <= i < |l| && l[i] == n;
        assert r[|l| - 1 - i] == n;
      }
    }
  }

  lemma ShorterFirst(names: seq<string>, i: nat, p: string)
    requires Ascending(names) && i < |names| && p in names && |p| < |names[i]|
    ensures p in names[..i]
  {
    var k :| 0 <= k < |names| && names[k] == p;
    assert k < i;
    assert names[..i][k] == p;
  }

  lemma MoversNext<D>(base: map<string, D>, vend: map<string, D>, before: seq<string>, s: string)
    ensures Movers(base, vend, before + [s]) == Moved(base, vend, Movers(base, vend, before), s)
  {
    var next := before + [s];
    assert next[..|next| - 1] == before && next[|next| - 1] == s;
  }

  lemma UptoLast(front: seq<string>, rest: seq<string>, i: nat)
    requires i < |rest|
    ensures front + rest[..i + 1] == (front + rest[..i]) + [rest[i]]
    ensures forall s :: s in rest[..i + 1] <==> s in rest[..i] || s == rest[i]
  {
    assert rest[..i + 1] == rest[..i] + [rest[i]];
  }

  lemma Pusher<D>(base: map<string, D>, vend: map<string, D>, s: string) returns (p: string)
    requires Pushable(base, vend, s)
    ensures s in vend && !IsMatrix(s) && s !in base
    ensures |p| < |s| && Alias(p) == s && p in vend && (MustMove(base, vend, p) || Pushable(base, vend, p))
  {
    p :| |p| < |s| && Alias(p) == s && p in vend && !IsMatrix(p) && (p in base || Pushable(base, vend, p));
  }

  /** Moving `s` on and on ends under the name `n`. */
  ghost predicate Leads<D>(base: map<string, D>, vend: map<string, D>, s: string, n: string)
    decreases |n|
  {
    || Alias(s) == n
    || exists p :: |p| < |n| && Alias(p) == n && Pushable(base, vend, p) && Leads(base, vend, s, p)
  }

  lemma LeadsOn<D>(base: map<string, D>, vend: map<string, D>, s: string, p: string)
    requires Pushable(base, vend, p) && Leads(base, vend, s, p)
    ensures Leads(base, vend, s, Alias(p))
  {
    AliasNames(p, p);
    hide Alias, Pushable;
  }

  /** No file of `front` has to move before `s` can be pushed. */
  ghost predicate Clear<D>(base: map<string, D>, vend: map<string, D>, front: seq<string>, s: string) {
    forall f <- front :: !Leads(base, vend, f, s)
  }

  lemma PusherClear<D>(base: map<string, D>, vend: map<string, D>, front: seq<string>, s: string, p: string)
    requires Clear(base, vend, front, s) && Alias(p) == s
    ensures p !in front
    ensures Pushable(base, vend, p) ==> Clear(base, vend, front, p)
  {
    hide Alias, Pushable;
    if Pushable(base, vend, p) {
      forall f | f in front ensures !Leads(base, vend, f, p) {
        if Leads(base, vend, f, p) { LeadsOn(base, vend, f, p); }
      }
    }
  }

  lemma MovedMore<D>(base: map<string, D>, vend: map<string, D>, movers: set<string>, s: string)
    ensures movers <= Moved(base, vend, movers, s)
    ensures s in vend && !IsMatrix(s) && (s in base || Covered(movers, s)) ==> s in Moved(base, vend, movers, s)
  {
    hide IsMatrix, Covered;
  }

  lemma ListingHas(keys: set<string>, front: seq<string>, rest: seq<string>, n: string)
    requires Listing(keys, front + rest) && n in keys
    ensures n in front || n in rest
  {
    assert n in front + rest;
  }

  /** With the shortest names first, everything that can be pushed is, but for what
      comes first of all or waits for it. */
  lemma {:induction false} AllPushed<D>(base: map<string, D>, vend: map<string, D>, keys: set<string>,
                                        front: seq<string>, rest: seq<string>, i: nat, s: string)
    requires Listing(keys, front + rest) && Ascending(rest) && vend.Keys <= keys && i <= |rest|
    requires s in rest[..i]
    requires MustMove(base, vend, s) || (Pushable(base, vend, s) && Clear(base, vend, front, s))
    ensures s in Movers(base, vend, front + rest[..i])
    decreases i
  {
    var before := front + rest[..i - 1];
    UptoLast(front, rest, i - 1);
    MoversNext(base, vend, before, rest[i - 1]);
    var movers := Movers(base, vend, before);
    assert Movers(base, vend, front + rest[..i]) == Moved(base, vend, movers, rest[i - 1]);
    MovedMore(base, vend, movers, rest[i - 1]);
    hide Listing, Ascending, IsMatrix, Alias, Movers, Moved, Pushable, Clear;
    if s in rest[..i - 1] {
      AllPushed(base, vend, keys, front, rest, i - 1, s);
    } else if !MustMove(base, vend, s) {
      var p := Pusher(base, vend, s);
      PusherClear(base, vend, front, s, p);
      ListingHas(keys, front, rest, p);
      ShorterFirst(rest, i - 1, p);
      AllPushed(base, vend, keys, front, rest, i - 1, p);
      assert Covered(movers, s);
    }
  }

  lemma LongerFirst(listing: seq<string>, i: nat, p: string)
    requires Ascending(listing) && i < |listing| && p in Reverse(listing)[..i]
    ensures |p| >= |Reverse(listing)[i]| && Alias(p) != Reverse(listing)[i]
  {
    var k :| 0 <= k < i && Reverse(listing)[k] == p;
    assert |listing[|listing| - 1 - i]| <= |listing[|listing| - 1 - k]|;
    AliasNames(p, p);
  }

  /** With the longest names first, nothing is. */
  lemma {:induction false} NonePushed<D>(base: map<string, D>, vend: map<string, D>, listing: seq<string>,
                                         i: nat, s: string)
    requires Ascending(listing) && i <= |listing| && s in Movers(base, vend, Reverse(listing)[..i])
    ensures MustMove(base, vend, s)
    decreases i
  {
    var r := Reverse(listing);
    if i > 0 {
      assert r[..i][..i - 1] == r[..i - 1];
      var before := Movers(base, vend, r[..i - 1]);
      forall p | p in before ensures Alias(p) != r[i - 1] {
        MoversBound(base, vend, r[..i - 1], p);
        LongerFirst(listing, i - 1, p);
      }
      hide Ascending, IsMatrix, Alias, Reverse;
      if s in before { NonePushed(base, vend, listing, i - 1, s); }
    }
  }

  lemma PushedThere<D(!new)>(base: map<string, D>, vend: map<string, D>, keys: set<string>, l: seq<string>, c: string)
    requires c in vend && Pushable(base, vend, c)
    requires vend.Keys <= keys && Listing(keys, l) && Ascending(l)
    ensures Has(PutAll(base, vend, l), Alias(c), vend[c])
  {
    hide PutAll, Movers, IsMatrix, Alias, Placed, Has, Pushable;
    ShapeOf(base, vend, keys, l);
    assert [] + l == [] + l[..|l|] == l && c in l by { hide Shape, Proper; }
    AllPushed(base, vend, keys, [], l, |l|, c);
    MovedThere(base, vend, Movers(base, vend, l), keys, c, vend[c]);
  }

  lemma NotPushedThere<D(!new)>(base: map<string, D>, vend: map<string, D>, keys: set<string>, l: seq<string>,
                                c: string)
    requires c in vend && c !in base && !Settled(base, vend, Alias(c), vend[c])
    requires vend.Keys <= keys && Listing(keys, Reverse(l)) && Ascending(l)
    ensures !Has(PutAll(base, vend, Reverse(l)), Alias(c), vend[c])
  {
    var r := Reverse(l);
    ShapeOf(base, vend, keys, r);
    assert r[..|r|] == r;
    hide Shape, Settled;
    forall p | p in Movers(base, vend, r) ensures Alias(p) != Alias(c) {
      NonePushed(base, vend, l, |r|, p);
      AliasNames(p, c);
    }
    hide PutAll, Movers, IsMatrix, Alias, Has, Reverse;
    assert !Covered(Movers(base, vend, r), Alias(c));
    assert !Placed(base, vend, Movers(base, vend, r), keys, Alias(c), vend[c]);
  }

  /** If something can be pushed away to a place where it matters, the two orders
      differ there. */
  lemma OrdersDiffer<D(!new)>(base: map<string, D>, vend: map<string, D>, keys: set<string>, c: string)
    requires vend.Keys <= keys && Pushable(base, vend, c) && !Settled(base, vend, Alias(c), vend[c])
    ensures !OrderFree(base, vend, keys)
  {
    var l := SortedListing(keys);
    ReverseListing(keys, l);
    hide PutAll, IsMatrix, Alias, Has, Reverse, Settled, Ascending;
    PushedThere(base, vend, keys, l, c);
    NotPushedThere(base, vend, keys, l, c);
  }

  /** All orders give the same files exactly if whatever can be pushed would be put
      where the same file is anyway. */
  lemma OrderFreeExactly<D(!new)>(base: map<string, D>, vend: map<string, D>, keys: set<string>)
    requires vend.Keys <= keys
    ensures OrderFree(base, vend, keys) <==> PushesNothing(base, vend)
  {
    if PushesNothing(base, vend) {
      forall l, l' | Listing(keys, l) && Listing(keys, l') ensures PutAll(base, vend, l) == PutAll(base, vend, l') {
        SameInAnyOrder(base, vend, keys, l, l');
      }
    } else {
      var c :| Pushable(base, vend, c) && !Settled(base, vend, Alias(c), vend[c]);
      OrdersDiffer(base, vend, keys, c);
    }
  }

  // ----- what is overwritten -----

  /** The AOSP file of that name is in the output. */
  ghost predicate AospStays<D>(base: map<string, D>, movers: set<string>, n: string) {
    n in base && !Covered(movers, n)
  }

  /** The vendor file of that name is, there or under its other name. */
  ghost predicate VendorStays<D>(base: map<string, D>, vend: map<string, D>, movers: set<string>, s: string) {
    s in vend && (s in movers || (s !in base && !Covered(movers, s)))
  }

  lemma StaysSomewhere<D(!new)>(base: map<string, D>, vend: map<string, D>, keys: set<string>, listing: seq<string>,
                                s: string)
    requires vend.Keys <= keys && Listing(keys, listing)
    ensures var out, movers := PutAll(base, vend, listing), Movers(base, vend, listing);
      && (AospStays(base, movers, s) ==> Has(out, s, base[s]))
      && (VendorStays(base, vend, movers, s) ==> Has(out, if s in movers then Alias(s) else s, vend[s]))
  {
    var movers := Movers(base, vend, listing);
    ShapeOf(base, vend, keys, listing);
    hide Movers, PutAll, IsMatrix, Alias, Has, Listing;
    if s in movers {
      MovedThere(base, vend, movers, keys, s, vend[s]);
    } else {
      assert VendorStays(base, vend, movers, s) ==> Placed(base, vend, movers, keys, s, vend[s]);
    }
    assert AospStays(base, movers, s) ==> Placed(base, vend, movers, keys, s, base[s]);
  }

  lemma StaysOnly<D(!new)>(base: map<string, D>, vend: map<string, D>, keys: set<string>, listing: seq<string>,
                           n: string, d: D)
    requires vend.Keys <= keys && Listing(keys, listing) && Has(PutAll(base, vend, listing), n, d)
    ensures var movers := Movers(base, vend, listing);
      || (AospStays(base, movers, n) && base[n] == d)
      || (VendorStays(base, vend, movers, n) && n !in movers && vend[n] == d)
      || exists s :: s in movers && Alias(s) == n && VendorStays(base, vend, movers, s) && vend[s] == d
  {
    var movers := Movers(base, vend, listing);
    ShapeOf(base, vend, keys, listing);
    hide Movers, PutAll, IsMatrix, Alias, Has, Listing;
    assert Placed(base, vend, movers, keys, n, d);
    if n in movers { MoversCovered(base, vend, listing, n); }
  }

  /** A file that moves has found its name taken. */
  lemma {:induction false} MoversCovered<D>(base: map<string, D>, vend: map<string, D>, listing: seq<string>, s: string)
    requires s in Movers(base, vend, listing)
    ensures s in base || Covered(Movers(base, vend, listing), s)
    decreases |listing|
  {
    var before := Movers(base, vend, listing[..|listing| - 1]);
    hide IsMatrix, Alias;
    if s in before { MoversCovered(base, vend, listing[..|listing| - 1], s); }
    if p :| p in before && Alias(p) == s { assert p in Movers(base, vend, listing); }
  }

  // ----- what can be overwritten in some order -----

  /** In some order, a file is put under this name because its own is taken. */
  ghost predicate AtRisk<D>(base: map<string, D>, vend: map<string, D>, n: string) {
    exists p :: Alias(p) == n && (MustMove(base, vend, p) || Pushable(base, vend, p))
  }

  lemma RiskFrom<D>(base: map<string, D>, vend: map<string, D>, n: string) returns (p: string)
    requires AtRisk(base, vend, n)
    ensures p in vend && Alias(p) == n && (MustMove(base, vend, p) || Pushable(base, vend, p))
  {
    hide Alias, IsMatrix;
    p :| Alias(p) == n && (MustMove(base, vend, p) || Pushable(base, vend, p));
  }

  lemma NeverCovered<D>(base: map<string, D>, vend: map<string, D>, listing: seq<string>, n: string)
    requires !AtRisk(base, vend, n)
    ensures !Covered(Movers(base, vend, listing), n)
  {
    hide Alias, MustMove, Pushable, Movers;
    if p :| p in Movers(base, vend, listing) && Alias(p) == n {
      MoversBound(base, vend, listing, p);
    }
  }

  lemma PushableAtRisk<D>(base: map<string, D>, vend: map<string, D>, s: string)
    requires s in vend && !IsMatrix(s) && s !in base
    ensures Pushable(base, vend, s) <==> AtRisk(base, vend, s)
  {
    if Pushable(base, vend, s) {
      var p := Pusher(base, vend, s);
    }
    if AtRisk(base, vend, s) {
      var p := RiskFrom(base, vend, s);
      AliasNames(p, p);
      hide IsMatrix, Alias;
    }
  }

  /** A vendor file that cannot be pushed is in the output, in every order. */
  lemma UnpushedStays<D>(base: map<string, D>, vend: map<string, D>, listing: seq<string>, s: string)
    requires s in vend && !IsMatrix(s) && !Pushable(base, vend, s) && s in listing
    ensures VendorStays(base, vend, Movers(base, vend, listing), s)
  {
    if s in base {
      MoversBound(base, vend, listing, s);
    } else {
      PushableAtRisk(base, vend, s);
      NeverCovered(base, vend, listing, s);
    }
  }

  /** While a file stays where it is, nothing it leads to is covered. */
  lemma {:induction false} LeadsStops<D>(base: map<string, D>, vend: map<string, D>, listing: seq<string>,
                                         s: string, n: string)
    requires Leads(base, vend, s, n) && s !in Movers(base, vend, listing)
    ensures !Covered(Movers(base, vend, listing), n)
    decreases |n|
  {
    var movers := Movers(base, vend, listing);
    if q :| q in movers && Alias(q) == n {
      AliasNames(q, s);
      var p :| |p| < |n| && Alias(p) == n && Pushable(base, vend, p) && Leads(base, vend, s, p);
      AliasNames(q, p);
      hide Alias, Movers;
      LeadsStops(base, vend, listing, s, p);
      MoversCovered(base, vend, listing, p);
    }
  }

  lemma SplitListing(keys: set<string>, first: set<string>) returns (front: seq<string>, rest: seq<string>)
    requires first <= keys
    ensures Listing(keys, front + rest) && Ascending(rest)
    ensures forall n :: n in front <==> n in first
  {
    front := SortedListing(first);
    rest := SortedListing(keys - first);
    hide Ascending;
    forall i, j | 0 <= i < |front| && 0 <= j < |rest| ensures front[i] != rest[j] {
      assert front[i] in front && rest[j] in rest;
    }
    assert forall n :: n in front + rest <==> n in front || n in rest;
  }

  lemma {:induction false} FrontFirst<D>(base: map<string, D>, vend: map<string, D>, front: seq<string>)
    requires forall f <- front :: f !in base
    ensures Movers(base, vend, front) == {}
    decreases |front|
  {
    if front != [] {
      FrontFirst(base, vend, front[..|front| - 1]);
      assert front[|front| - 1] in front;
      assert !Covered({}, front[|front| - 1]);
    }
  }

  /** What comes first and is not in the way of an AOSP file is not moved. */
  lemma {:induction false} FrontStays<D>(base: map<string, D>, vend: map<string, D>, keys: set<string>,
                                         front: seq<string>, rest: seq<string>, i: nat)
    requires Listing(keys, front + rest) && i <= |rest| && forall f <- front :: f !in base
    ensures forall f <- front :: f !in Movers(base, vend, front + rest[..i])
    decreases i
  {
    if i == 0 {
      assert front + rest[..0] == front;
      FrontFirst(base, vend, front);
    } else {
      FrontStays(base, vend, keys, front, rest, i - 1);
      UptoLast(front, rest, i - 1);
      MoversNext(base, vend, front + rest[..i - 1], rest[i - 1]);
      assert (front + rest)[|front| + i - 1] == rest[i - 1];
      forall k | 0 <= k < |front| ensures front[k] != rest[i - 1] { assert (front + rest)[k] == front[k]; }
      hide Listing, Movers, IsMatrix, Covered;
    }
  }

  /** With the rest in ascending order, every name at risk is covered, but for those
      that the front leads to. */
  lemma RiskTaken<D>(base: map<string, D>, vend: map<string, D>, keys: set<string>, front: seq<string>,
                     rest: seq<string>, n: string)
    requires Listing(keys, front + rest) && Ascending(rest) && vend.Keys <= keys
    requires AtRisk(base, vend, n) && Clear(base, vend, front, n)
    ensures Covered(Movers(base, vend, front + rest), n)
  {
    hide Listing, Ascending, Clear, Alias, Movers, MustMove, Pushable, AtRisk;
    var p := RiskFrom(base, vend, n);
    PusherClear(base, vend, front, n, p);
    ListingHas(keys, front, rest, p);
    assert rest[..|rest|] == rest;
    AllPushed(base, vend, keys, front, rest, |rest|, p);
  }

  // ----- two clashes -----

  lemma ClashPushes<D>(base: map<string, D>, vend: map<string, D>, f: string, d: D)
    requires base == map[f := d] && vend == map[f := d, Alias(f) := d]
    requires !IsMatrix(f) && !IsMatrix(Alias(f)) && Alias(Alias(f)) != f && Alias(Alias(f)) != Alias(f) && f != Alias(f)
    ensures !PushesNothing(base, vend)
  {
    AliasNames(f, f);
    hide IsMatrix, Alias;
    assert Pushable(base, vend, Alias(f));
  }

  lemma OneMover<D>(base: map<string, D>, vend: map<string, D>, f: string)
    requires f in base && f in vend && !IsMatrix(f)
    ensures Movers(base, vend, [f]) == {f} && Covered({f}, Alias(f))
  {
    hide IsMatrix, Alias;
    assert [f][..0] == [] && Movers(base, vend, []) == {};
    assert f in {f};
  }
}
