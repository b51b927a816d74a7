/** aosp_sepolicy_merger.py: scrubbing the vendor policy of what the platform
    declares. A policy file has one flat statement on a line. */
module Cil {

  /** How a line reads: a blank or comment line, in which the declaration pattern
      may still find a name; `(typeattributeset name (members))`; or any other
      `(keyword args)`. */
  datatype Statement =
    | Silent(found: seq<string>)
    | AttrSet(name: string, members: seq<string>)
    | Flat(keyword: string, args: seq<string>)

  datatype Line = Line(text: string, statement: Statement)

  const DeclKeywords := {"type", "typeattribute", "macro", "common", "class"}
  const AuxKeywords := {"roletype", "typeattribute", "typebounds"}

  predicate Declares(s: Statement, name: string) {
    s.Flat? && s.keyword in DeclKeywords && |s.args| > 0 && s.args[0] == name
  }

  /** What `extract_declared_types` finds in a line, comments included. */
  function Found(s: Statement): set<string> {
    match s
    case Silent(found) => if |found| > 0 then {found[0]} else {}
    case AttrSet(_, _) => {}
    case Flat(keyword, args) => if keyword in DeclKeywords && |args| > 0 then {args[0]} else {}
  }

  function Identifiers(lines: seq<Line>): set<string> {
    set i, x | 0 <= i < |lines| && x in Found(lines[i].statement) :: x
  }

  /** `extract_declared_types` */
  method ExtractDeclaredTypes(lines: seq<Line>) returns (found: set<string>)
    ensures found == Identifiers(lines)
  {
    found := {};
    for i := 0 to |lines|
      invariant found == set j, x | 0 <= j < i && x in Found(lines[j].statement) :: x
    {
      found := found + Found(lines[i].statement);
    }
  }

  // ----- one line -----

  function Keep(tokens: seq<string>, dup: set<string>): seq<string> {
    if tokens == [] then []
    else Keep(tokens[..|tokens| - 1], dup) + if tokens[|tokens| - 1] in dup then [] else [tokens[|tokens| - 1]]
  }

  function Words(tokens: seq<string>): string {
    if tokens == [] then ""
    else if |tokens| == 1 then tokens[0]
    else Words(tokens[..|tokens| - 1]) + " " + tokens[|tokens| - 1]
  }

  function SetLine(name: string, members: seq<string>): Line {
    Line("(typeattributeset " + name + " (" + Words(members) + "))\n", AttrSet(name, members))
  }

  lemma {:induction false} KeepIn(tokens: seq<string>, dup: set<string>, t: string)
    ensures t in Keep(tokens, dup) <==> t in tokens && t !in dup
    ensures |Keep(tokens, dup)| <= |tokens|
    ensures |Keep(tokens, dup)| == |tokens| <==> Keep(tokens, dup) == tokens
    decreases |tokens|
  {
    if tokens != [] {
      var n := |tokens| - 1;
      KeepIn(tokens[..n], dup, t);
      assert tokens == tokens[..n] + [tokens[n]];
    }
  }

  /** The line as it is written, or nothing. */
  function Scrubbed(l: Line, dup: set<string>): seq<Line> {
    match l.statement
    case Silent(_) => [l]
    case Flat(keyword, args) =>
      if keyword in DeclKeywords && |args| > 0 && args[0] in dup then []
      else if keyword in AuxKeywords && (exists i :: 0 <= i < |args| && args[i] in dup) then []
      else [l]
    case AttrSet(name, members) =>
      if name in dup then []
      else if |Keep(members, dup)| == |members| then [l]
      else if Keep(members, dup) == [] then []
      else [SetLine(name, Keep(members, dup))]
  }

  function ScrubbedAll(lines: seq<Line>, dup: set<string>): seq<Line> {
    if lines == [] then [] else ScrubbedAll(lines[..|lines| - 1], dup) + Scrubbed(lines[|lines| - 1], dup)
  }

  /** `clean_vendor_cil` */
  method CleanVendorCil(lines: seq<Line>, dup: set<string>) returns (buffer: seq<Line>)
    ensures buffer == ScrubbedAll(lines, dup)
  {
    buffer := [];
    for i := 0 to |lines|
      invariant buffer == ScrubbedAll(lines[..i], dup)
    {
      assert lines[..i + 1][..i] == lines[..i];
      var line := lines[i];
      match line.statement {
        case Silent(_) =>
          buffer := buffer + [line];
        case Flat(keyword, args) =>
          if keyword in DeclKeywords && |args| > 0 && args[0] in dup { continue; }
          if keyword in AuxKeywords {
            var hit := AnyIn(args, dup);
            if hit { continue; }
          }
          buffer := buffer + [line];
        case AttrSet(name, members) =>
          var cleaned := KeepTokens(members, dup);
          if name in dup { continue; }
          if |cleaned| != |members| {
            if cleaned == [] { continue; }
            line := SetLine(name, cleaned);
          }
          buffer := buffer + [line];
      }
    }
    assert lines[..|lines|] == lines;
  }

  method AnyIn(tokens: seq<string>, dup: set<string>) returns (hit: bool)
    ensures hit <==> exists i :: 0 <= i < |tokens| && tokens[i] in dup
  {
    for i := 0 to |tokens|
      invariant forall j :: 0 <= j < i ==> tokens[j] !in dup
    {
      if tokens[i] in dup { return true; }
    }
    hit := false;
  }

  method KeepTokens(tokens: seq<string>, dup: set<string>) returns (kept: seq<string>)
    ensures kept == Keep(tokens, dup)
  {
    kept := [];
    for i := 0 to |tokens|
      invariant kept == Keep(tokens[..i], dup)
    {
      assert tokens[..i + 1][..i] == tokens[..i];
      if tokens[i] !in dup { kept := kept + [tokens[i]]; }
    }
    assert tokens[..|tokens|] == tokens;
  }

  // ----- what the scrubbed policy says -----

  /** Names a policy declares; comments declare nothing. */
  function Declared(lines: seq<Line>): set<string> {
    set i, x | 0 <= i < |lines| && lines[i].statement.Flat? && x in Found(lines[i].statement) :: x
  }

  /** `member` is put into attribute `name`. */
  predicate Puts(l: Line, name: string, member: string) {
    l.statement.AttrSet? && l.statement.name == name && member in l.statement.members
  }

  ghost predicate Member(lines: seq<Line>, name: string, member: string) {
    exists l :: l in lines && Puts(l, name, member)
  }

  /** The line has a duplicate where the scrubbing looks for one. */
  predicate Names(l: Line, dup: set<string>) {
    match l.statement
    case Silent(_) => false
    case Flat(keyword, args) =>
      || (keyword in DeclKeywords && |args| > 0 && args[0] in dup)
      || (keyword in AuxKeywords && exists i :: 0 <= i < |args| && args[i] in dup)
    case AttrSet(name, members) => name in dup || exists i :: 0 <= i < |members| && members[i] in dup
  }

  lemma {:induction false} KeepAll(tokens: seq<string>, dup: set<string>)
    ensures |Keep(tokens, dup)| == |tokens| <==> forall i :: 0 <= i < |tokens| ==> tokens[i] !in dup
    ensures |Keep(tokens, dup)| <= |tokens|
    decreases |tokens|
  {
    if tokens != [] { KeepAll(tokens[..|tokens| - 1], dup); }
  }

  /** A line stays as it is exactly if it names no duplicate; what is written
      never names one. */
  lemma ScrubbedLine(l: Line, dup: set<string>)
    ensures Scrubbed(l, dup) == [l] <==> !Names(l, dup)
    ensures forall x <- Scrubbed(l, dup) :: !Names(x, dup)
    ensures |Scrubbed(l, dup)| <= 1
  {
    if l.statement.AttrSet? {
      var kept := Keep(l.statement.members, dup);
      KeepAll(l.statement.members, dup);
      forall i | 0 <= i < |kept| ensures kept[i] !in dup { KeepIn(l.statement.members, dup, kept[i]); }
      hide Keep, Words;
      assert Scrubbed(l, dup) != [l] || !Names(l, dup);
    }
  }

  lemma ScrubbedNext(lines: seq<Line>, dup: set<string>)
    requires lines != []
    ensures forall l :: l in ScrubbedAll(lines, dup) <==>
              l in ScrubbedAll(lines[..|lines| - 1], dup) || l in Scrubbed(lines[|lines| - 1], dup)
    ensures forall l :: l in lines <==> l in lines[..|lines| - 1] || l == lines[|lines| - 1]
  {}

  lemma {:induction false} ScrubbedOf(lines: seq<Line>, dup: set<string>, l: Line)
    ensures l in ScrubbedAll(lines, dup) <==> exists k :: k in lines && l in Scrubbed(k, dup)
    decreases |lines|
  {
    if lines != [] {
      ScrubbedOf(lines[..|lines| - 1], dup, l);
      ScrubbedNext(lines, dup);
      hide Scrubbed, ScrubbedAll;
    }
  }

  /** No line of the result names a duplicate. */
  lemma Clean(lines: seq<Line>, dup: set<string>, l: Line)
    requires l in ScrubbedAll(lines, dup)
    ensures !Names(l, dup)
  {
    ScrubbedOf(lines, dup, l);
    var k :| k in lines && l in Scrubbed(k, dup);
    ScrubbedLine(k, dup);
  }

  lemma {:induction false} ScrubbedConcat(a: seq<Line>, b: seq<Line>, dup: set<string>)
    ensures ScrubbedAll(a + b, dup) == ScrubbedAll(a, dup) + ScrubbedAll(b, dup)
    decreases |b|
  {
    if b == [] {
      assert a + b == a;
    } else {
      hide Scrubbed;
      var n := |b| - 1;
      ScrubbedConcat(a, b[..n], dup);
      assert (a + b)[..|a + b| - 1] == a + b[..n];
      assert (a + b)[|a + b| - 1] == b[n];
      assert ScrubbedAll(a + b, dup) == ScrubbedAll(a + b[..n], dup) + Scrubbed(b[n], dup);
      assert ScrubbedAll(b, dup) == ScrubbedAll(b[..n], dup) + Scrubbed(b[n], dup);
      hide ScrubbedAll;
    }
  }

  /** Where line `i` goes, if it stays. */
  function Position(lines: seq<Line>, dup: set<string>, i: nat): nat
    requires i <= |lines|
  { |ScrubbedAll(lines[..i], dup)| }

  lemma SplitLines(lines: seq<Line>, dup: set<string>, i: nat)
    requires i < |lines|
    ensures ScrubbedAll(lines, dup)
         == ScrubbedAll(lines[..i], dup) + Scrubbed(lines[i], dup) + ScrubbedAll(lines[i + 1..], dup)
    ensures ScrubbedAll(lines[..i + 1], dup) == ScrubbedAll(lines[..i], dup) + Scrubbed(lines[i], dup)
  {
    assert lines[..i + 1] == lines[..i] + [lines[i]] && lines[..i + 1][..i] == lines[..i];
    assert lines == lines[..i + 1] + lines[i + 1..];
    hide Scrubbed;
    ScrubbedConcat(lines[..i + 1], lines[i + 1..], dup);
  }

  lemma PositionsGrow(lines: seq<Line>, dup: set<string>, i: nat, j: nat)
    requires i < j <= |lines|
    ensures Position(lines, dup, i) + |Scrubbed(lines[i], dup)| <= Position(lines, dup, j)
  {
    assert lines[..j][..i] == lines[..i] && lines[..j][i] == lines[i];
    SplitLines(lines[..j], dup, i);
  }

  /** Lines that name no duplicate stay, unchanged and in order. */
  lemma UntouchedKept(lines: seq<Line>, dup: set<string>, i: nat, j: nat)
    requires i < j < |lines| && !Names(lines[i], dup) && !Names(lines[j], dup)
    ensures Position(lines, dup, i) < Position(lines, dup, j) < |ScrubbedAll(lines, dup)|
    ensures ScrubbedAll(lines, dup)[Position(lines, dup, i)] == lines[i]
    ensures ScrubbedAll(lines, dup)[Position(lines, dup, j)] == lines[j]
  {
    ScrubbedLine(lines[i], dup);
    ScrubbedLine(lines[j], dup);
    SplitLines(lines, dup, i);
    SplitLines(lines, dup, j);
    PositionsGrow(lines, dup, i, j);
    hide Scrubbed, ScrubbedAll, Names;
  }

  lemma {:induction false} CleanStays(lines: seq<Line>, dup: set<string>)
    requires forall l <- lines :: !Names(l, dup)
    ensures ScrubbedAll(lines, dup) == lines
    decreases |lines|
  {
    if lines != [] {
      var n := |lines| - 1;
      assert ScrubbedAll(lines, dup) == ScrubbedAll(lines[..n], dup) + Scrubbed(lines[n], dup);
      hide Scrubbed, Names, ScrubbedAll;
      assert forall l <- lines[..n] :: l in lines;
      CleanStays(lines[..n], dup);
      ScrubbedLine(lines[n], dup);
      LastLine(lines);
    }
  }

  lemma LastLine<T>(s: seq<T>)
    requires s != []
    ensures s == s[..|s| - 1] + [s[|s| - 1]] && s[|s| - 1] in s
  {}

  lemma CleanTwice(lines: seq<Line>, dup: set<string>)
    ensures ScrubbedAll(ScrubbedAll(lines, dup), dup) == ScrubbedAll(lines, dup)
  {
    forall l <- ScrubbedAll(lines, dup) ensures !Names(l, dup) { Clean(lines, dup, l); }
    hide ScrubbedAll, Names;
    CleanStays(ScrubbedAll(lines, dup), dup);
  }

  /** A `typeattribute` statement has one name. */
  ghost predicate WellFormed(lines: seq<Line>) {
    forall l <- lines :: l.statement.Flat? && l.statement.keyword == "typeattribute" ==> |l.statement.args| <= 1
  }

  ghost predicate DeclaredIn(lines: seq<Line>, x: string) {
    exists l :: l in lines && Declares(l.statement, x)
  }

  lemma DeclaredMeans(lines: seq<Line>, x: string)
    ensures x in Declared(lines) <==> DeclaredIn(lines, x)
  {
    if l :| l in lines && Declares(l.statement, x) {
      var i :| 0 <= i < |lines| && lines[i] == l;
      assert x in Found(lines[i].statement);
    }
    if x in Declared(lines) {
      var i :| 0 <= i < |lines| && lines[i].statement.Flat? && x in Found(lines[i].statement);
      assert lines[i] in lines && Declares(lines[i].statement, x);
    }
  }

  lemma LineDeclares(l: Line, dup: set<string>, x: string)
    requires l.statement.Flat? && l.statement.keyword == "typeattribute" ==> |l.statement.args| <= 1
    ensures (exists k :: k in Scrubbed(l, dup) && Declares(k.statement, x)) <==> Declares(l.statement, x) && x !in dup
  {
    hide Keep, Words;
    assert "roletype" !in DeclKeywords && "typebounds" !in DeclKeywords by { NotDeclaring(); }
    if Declares(l.statement, x) && x !in dup {
      assert Scrubbed(l, dup) == [l];
    }
  }

  lemma NotDeclaring()
    ensures "roletype" !in DeclKeywords && "typebounds" !in DeclKeywords
  {
    assert |"roletype"| == 8 && |"typebounds"| == 10;
    assert |"type"| == 4 && |"typeattribute"| == 13 && |"macro"| == 5 && |"common"| == 6 && |"class"| == 5;
  }

  /** The scrubbed policy declares what it did, less the duplicates. */
  lemma DeclaredExactly(lines: seq<Line>, dup: set<string>)
    requires WellFormed(lines)
    ensures Declared(ScrubbedAll(lines, dup)) == Declared(lines) - dup
  {
    var out := ScrubbedAll(lines, dup);
    forall x ensures x in Declared(out) <==> x in Declared(lines) - dup {
      DeclaredMeans(out, x);
      DeclaredMeans(lines, x);
      forall l <- lines ensures
        (exists k :: k in Scrubbed(l, dup) && Declares(k.statement, x)) <==> Declares(l.statement, x) && x !in dup {
        LineDeclares(l, dup, x);
      }
      forall k ensures k in out <==> exists l :: l in lines && k in Scrubbed(l, dup) { ScrubbedOf(lines, dup, k); }
      DeclaredThrough(lines, out, dup, x);
    }
  }

  lemma DeclaredThrough(lines: seq<Line>, out: seq<Line>, dup: set<string>, x: string)
    requires forall l <- lines ::
      (exists k :: k in Scrubbed(l, dup) && Declares(k.statement, x)) <==> Declares(l.statement, x) && x !in dup
    requires forall k :: k in out <==> exists l :: l in lines && k in Scrubbed(l, dup)
    ensures DeclaredIn(out, x) <==> DeclaredIn(lines, x) && x !in dup
  {
    hide Scrubbed, Declares;
    if l :| l in lines && Declares(l.statement, x) {
      if x !in dup {
        var k :| k in Scrubbed(l, dup) && Declares(k.statement, x);
        assert k in out;
      }
    }
  }

  lemma LinePuts(l: Line, dup: set<string>, name: string, member: string)
    ensures (exists k :: k in Scrubbed(l, dup) && Puts(k, name, member)) <==>
            Puts(l, name, member) && name !in dup && member !in dup
  {
    if l.statement.AttrSet? {
      KeepIn(l.statement.members, dup, member);
      hide Keep, Words;
      if Puts(l, name, member) && name !in dup && member !in dup {
        assert Scrubbed(l, dup)[0] in Scrubbed(l, dup);
      }
    }
  }

  lemma PutsThrough(lines: seq<Line>, out: seq<Line>, dup: set<string>, name: string, member: string)
    requires forall l <- lines :: (exists k :: k in Scrubbed(l, dup) && Puts(k, name, member)) <==>
                                  Puts(l, name, member) && name !in dup && member !in dup
    requires forall k :: k in out <==> exists l :: l in lines && k in Scrubbed(l, dup)
    ensures Member(out, name, member) <==> Member(lines, name, member) && name !in dup && member !in dup
  {
    hide Scrubbed, Puts;
    if l :| l in lines && Puts(l, name, member) {
      if name !in dup && member !in dup {
        var k :| k in Scrubbed(l, dup) && Puts(k, name, member);
        assert k in out;
      }
    }
  }

  /** Every attribute that is no duplicate keeps its members, less the duplicates. */
  lemma MembersExactly(lines: seq<Line>, dup: set<string>, name: string, member: string)
    ensures Member(ScrubbedAll(lines, dup), name, member) <==>
            Member(lines, name, member) && name !in dup && member !in dup
  {
    hide Scrubbed, ScrubbedAll, Puts, Member;
    forall l <- lines ensures (exists k :: k in Scrubbed(l, dup) && Puts(k, name, member)) <==>
                              Puts(l, name, member) && name !in dup && member !in dup {
      LinePuts(l, dup, name, member);
    }
    var out := ScrubbedAll(lines, dup);
    forall k ensures k in out <==> exists l :: l in lines && k in Scrubbed(l, dup) { ScrubbedOf(lines, dup, k); }
    PutsThrough(lines, out, dup, name, member);
  }

  // ----- the statements, with their keywords -----

  ghost predicate DeclaresName(l: Line, x: string) {
    && l.statement.Flat? && |l.statement.args| > 0 && l.statement.args[0] == x
    && (l.statement.keyword == "type" || l.statement.keyword == "typeattribute" || l.statement.keyword == "macro"
        || l.statement.keyword == "common" || l.statement.keyword == "class")
  }

  /** A statement that is dropped if any of its arguments is known to the platform. */
  ghost predicate RefersTo(l: Line, x: string) {
    && l.statement.Flat? && x in l.statement.args
    && (l.statement.keyword == "roletype" || l.statement.keyword == "typeattribute"
        || l.statement.keyword == "typebounds")
  }

  ghost predicate SetHas(l: Line, x: string) {
    l.statement.AttrSet? && (l.statement.name == x || x in l.statement.members)
  }

  /** The scrubbing looks for the name in this place. */
  ghost predicate Mentions(l: Line, x: string) { DeclaresName(l, x) || RefersTo(l, x) || SetHas(l, x) }

  /** The name is declared in one of the lines, or found in a comment. */
  ghost predicate Known(lines: seq<Line>, x: string) {
    exists l :: l in lines && (DeclaresName(l, x)
                               || (l.statement.Silent? && |l.statement.found| > 0 && l.statement.found[0] == x))
  }

  lemma KnownExactly(lines: seq<Line>, x: string)
    ensures x in Identifiers(lines) <==> Known(lines, x)
  {
    forall l: Line ensures x in Found(l.statement) <==>
      DeclaresName(l, x) || (l.statement.Silent? && |l.statement.found| > 0 && l.statement.found[0] == x) {}
    hide Found, DeclaresName;
    if x in Identifiers(lines) {
      var i :| 0 <= i < |lines| && x in Found(lines[i].statement);
      assert lines[i] in lines;
    }
  }

  lemma NamesExactly(l: Line, dup: set<string>)
    ensures Names(l, dup) <==> exists x :: x in dup && Mentions(l, x)
  {
    if Names(l, dup) {
      match l.statement
      case Flat(keyword, args) =>
        if keyword in DeclKeywords && |args| > 0 && args[0] in dup {
          assert Mentions(l, args[0]);
        } else {
          var i :| 0 <= i < |args| && args[i] in dup;
          assert Mentions(l, args[i]);
        }
      case AttrSet(name, members) =>
        if name !in dup {
          var i :| 0 <= i < |members| && members[i] in dup;
          assert Mentions(l, members[i]);
        } else {
          assert Mentions(l, name);
        }
    }
  }

  /** An attribute set that loses some members, but not all, is written anew: its name,
      and the other members with blanks between them. */
  lemma RewrittenSet(name: string, members: seq<string>, text: string, dup: set<string>)
    requires name !in dup && Keep(members, dup) != [] && Keep(members, dup) != members
    ensures var kept := Keep(members, dup);
      && Scrubbed(Line(text, AttrSet(name, members)), dup)
         == [Line("(typeattributeset " + name + " (" + Words(kept) + "))\n", AttrSet(name, kept))]
      && Words(kept) == if |kept| == 1 then kept[0] else Words(kept[..|kept| - 1]) + " " + kept[|kept| - 1]
  {
    KeepIn(members, dup, "");
    hide Keep;
  }

  /** What the scrubbed vendor policy says of names that the platform knows, and which
      vendor lines are in it unchanged. */
  lemma ScrubbedNames(plat: seq<Line>, mapping: seq<Line>, vendor: seq<Line>)
    ensures var out := ScrubbedAll(vendor, Identifiers(plat) + Identifiers(mapping));
      && (forall w, x :: w in out && (Known(plat, x) || Known(mapping, x)) ==> !Mentions(w, x))
      && (forall w :: w in vendor && (forall x :: Known(plat, x) || Known(mapping, x) ==> !Mentions(w, x)) ==>
            w in out)
  {
    var dup := Identifiers(plat) + Identifiers(mapping);
    var out := ScrubbedAll(vendor, dup);
    forall x ensures x in dup <==> Known(plat, x) || Known(mapping, x) {
      KnownExactly(plat, x);
      KnownExactly(mapping, x);
    }
    hide Identifiers, Known, Mentions, ScrubbedAll, Scrubbed, Names;
    forall w, x | w in out && x in dup ensures !Mentions(w, x) {
      Clean(vendor, dup, w);
      NamesExactly(w, dup);
    }
    forall w | w in vendor && forall x :: x in dup ==> !Mentions(w, x) ensures w in out {
      NamesExactly(w, dup);
      ScrubbedLine(w, dup);
      ScrubbedOf(vendor, dup, w);
    }
  }

  // ----- neverallow and the pipeline -----

  predicate IsNeverallow(s: Statement) {
    s.Flat? && (s.keyword == "neverallow" || s.keyword == "neverallowx") && |s.args| > 0
  }

  function StripLine(l: Line): Line {
    if IsNeverallow(l.statement) then Line("; STRIPPED CONSTRAINT: " + l.text, Silent([])) else l
  }

  /** `strip_neverallows`: every line has its successor in the same place. */
  method StripNeverallows(lines: seq<Line>) returns (buffer: seq<Line>)
    ensures |buffer| == |lines|
    ensures forall i :: 0 <= i < |lines| ==> buffer[i] == StripLine(lines[i])
    ensures forall i :: 0 <= i < |lines| ==>
              var s := lines[i].statement;
              if s.Flat? && (s.keyword == "neverallow" || s.keyword == "neverallowx") && |s.args| > 0
              then buffer[i].text == "; STRIPPED CONSTRAINT: " + lines[i].text && buffer[i].statement == Silent([])
              else buffer[i] == lines[i]
    ensures forall l <- buffer :: !IsNeverallow(l.statement)
  {
    buffer := [];
    for i := 0 to |lines|
      invariant |buffer| == i
      invariant forall j :: 0 <= j < i ==> buffer[j] == StripLine(lines[j])
      invariant forall l <- buffer :: !IsNeverallow(l.statement)
    {
      if IsNeverallow(lines[i].statement) {
        buffer := buffer + [Line("; STRIPPED CONSTRAINT: " + lines[i].text, Silent([]))];
      } else {
        buffer := buffer + [lines[i]];
      }
    }
  }

  lemma StripDeclares(lines: seq<Line>, stripped: seq<Line>)
    requires |stripped| == |lines| && forall i :: 0 <= i < |lines| ==> stripped[i] == StripLine(lines[i])
    ensures Declared(stripped) == Declared(lines)
  {
    NeverDeclares();
    assert forall i :: 0 <= i < |lines| && lines[i].statement.Flat? && Found(lines[i].statement) != {} ==>
      stripped[i] == lines[i];
  }

  lemma NeverDeclares()
    ensures "neverallow" !in DeclKeywords && "neverallowx" !in DeclKeywords
  {
    assert |"neverallow"| == 10 && |"neverallowx"| == 11;
    assert |"type"| == 4 && |"typeattribute"| == 13 && |"macro"| == 5 && |"common"| == 6 && |"class"| == 5;
  }

  lemma DeclaredFound(lines: seq<Line>)
    ensures Declared(lines) <= Identifiers(lines)
  {}

  /** The files `merge_sepolicy_pipeline` hands to the compiler: nothing that the
      platform policy or the mapping declares is declared by the vendor again, or
      named by one of its attribute sets; what else the vendor declares is there. */
  method MergeSepolicyPipeline(plat: seq<Line>, mapping: seq<Line>, vendor: seq<Line>, vendorPub: seq<Line>)
    returns (platOut: seq<Line>, pubOut: seq<Line>, vendorOut: seq<Line>)
    ensures Declared(platOut) == Declared(plat) && Declared(pubOut) == Declared(vendorPub)
    ensures Declared(vendorOut) !! Declared(platOut) + Declared(mapping)
    ensures var dup := Identifiers(plat) + Identifiers(mapping);
      && (WellFormed(vendor) ==> Declared(vendorOut) == Declared(vendor) - dup)
      && (forall name, member :: Member(vendorOut, name, member) <==>
            Member(vendor, name, member) && name !in dup && member !in dup)
    ensures forall w, x :: w in vendorOut && (Known(plat, x) || Known(mapping, x)) ==> !Mentions(w, x)
    ensures forall w :: w in vendor && (forall x :: Known(plat, x) || Known(mapping, x) ==> !Mentions(w, x)) ==>
              w in vendorOut
    ensures forall l <- platOut + pubOut :: !IsNeverallow(l.statement)
  {
    var found := ExtractDeclaredTypes(plat);
    var more := ExtractDeclaredTypes(mapping);
    var dup := found + more;
    vendorOut := CleanVendorCil(vendor, dup);
    pubOut := StripNeverallows(vendorPub);
    platOut := StripNeverallows(plat);
    StripDeclares(plat, platOut);
    StripDeclares(vendorPub, pubOut);
    DeclaredFound(plat);
    DeclaredFound(mapping);
    DeclaredClean(vendor, dup);
    forall name, member ensures Member(vendorOut, name, member) <==>
                                Member(vendor, name, member) && name !in dup && member !in dup {
      MembersExactly(vendor, dup, name, member);
    }
    if WellFormed(vendor) { DeclaredExactly(vendor, dup); }
    ScrubbedNames(plat, mapping, vendor);
  }

  lemma DeclaredClean(lines: seq<Line>, dup: set<string>)
    ensures Declared(ScrubbedAll(lines, dup)) !! dup
  {
    var out := ScrubbedAll(lines, dup);
    forall i | 0 <= i < |out| ensures !Names(out[i], dup) { Clean(lines, dup, out[i]); }
  }
}
