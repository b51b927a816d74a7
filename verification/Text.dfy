/** Strings as the text tools of the repository see them: stripping, line
    splitting, line rendering. A text is what Python's text mode delivers, so
    `Universal` has to be applied to the decoded file before it is split. */
module Text {

  /** The characters `str.strip()` removes. */
  predicate IsSpace(c: char) {
    var k := c as int;
    || 9 <= k <= 13 || 28 <= k <= 32 || k == 0x85 || k == 0xA0 || k == 0x1680
    || 0x2000 <= k <= 0x200A || k == 0x2028 || k == 0x2029 || k == 0x202F || k == 0x205F || k == 0x3000
  }

  /** The characters at which `str.splitlines()` ends a line. */
  predicate IsLineBreak(c: char) {
    var k := c as int;
    10 <= k <= 13 || 28 <= k <= 30 || k == 0x85 || k == 0x2028 || k == 0x2029
  }

  /** The only line end that iterating over an open text file knows. */
  predicate IsNewline(c: char) { c == '\n' }

  ghost predicate AllSpace(s: string) { forall c <- s :: IsSpace(c) }

  function LStrip(s: string): string {
    if s != [] && IsSpace(s[0]) then LStrip(s[1..]) else s
  }

  function RStrip(s: string): string {
    if s != [] && IsSpace(s[|s| - 1]) then RStrip(s[..|s| - 1]) else s
  }

  function Strip(s: string): string { RStrip(LStrip(s)) }

  /** The leading white space, `line[:len(line) - len(line.lstrip())]`. */
  function Indent(s: string): string {
    if s != [] && IsSpace(s[0]) then [s[0]] + Indent(s[1..]) else ""
  }

  /** `str.lower()` on ASCII. */
  function Lower(s: string): string {
    seq(|s|, i requires 0 <= i < |s| => if 'A' <= s[i] <= 'Z' then (s[i] as int + 32) as char else s[i])
  }

  /** `t in s` */
  predicate Contains(s: string, t: string) {
    |t| <= |s| && (s[..|t|] == t || (|s| > 0 && Contains(s[1..], t)))
  }

  /** `s.replace(w, r)`; the empty word may only be replaced by nothing. */
  function ReplaceAll(s: string, w: string, r: string): string
    requires |w| == 0 ==> |r| == 0
  {
    if |w| == 0 || |s| < |w| then s
    else if s[..|w|] == w then r + ReplaceAll(s[|w|..], w, r)
    else [s[0]] + ReplaceAll(s[1..], w, r)
  }

  predicate StartsWith(s: string, p: string) { p <= s }

  /** Position of the first `c`, or the length when there is none. */
  function IndexOf(s: string, c: char): (i: nat)
    ensures i <= |s|
    ensures i < |s| ==> s[i] == c
    ensures c !in s[..i]
    ensures i < |s| <==> c in s
  {
    if s == [] then 0
    else if s[0] == c then 0
    else
      var j := IndexOf(s[1..], c);
      assert s[..1 + j] == [s[0]] + s[1..][..j];
      1 + j
  }

  // ----- searching -----

  lemma {:induction false} ContainsAt(s: string, t: string, i: nat)
    requires i + |t| <= |s| && s[i..i + |t|] == t
    ensures Contains(s, t)
    decreases i
  {
    if i > 0 {
      assert s[1..][i - 1..i - 1 + |t|] == t;
      ContainsAt(s[1..], t, i - 1);
    }
  }

  lemma {:induction false} ContainsWhere(s: string, t: string) returns (i: nat)
    requires Contains(s, t)
    ensures i + |t| <= |s| && s[i..i + |t|] == t
    decreases |s|
  {
    if s[..|t|] == t {
      i := 0;
    } else {
      i := ContainsWhere(s[1..], t);
      assert s[i + 1..i + 1 + |t|] == s[1..][i..i + |t|];
      i := i + 1;
    }
  }

  /** Where a word was, its replacement is. */
  lemma {:induction false} ReplacedContains(s: string, w: string, r: string)
    requires |w| > 0 && Contains(s, w)
    ensures Contains(ReplaceAll(s, w, r), r)
    decreases |s|
  {
    if s[..|w|] == w {
      ContainsAt(ReplaceAll(s, w, r), r, 0);
    } else {
      ReplacedContains(s[1..], w, r);
      assert ReplaceAll(s, w, r)[1..] == ReplaceAll(s[1..], w, r);
    }
  }

  lemma {:induction false} NotReplaced(s: string, w: string, r: string)
    requires !Contains(s, w) && |w| > 0
    ensures ReplaceAll(s, w, r) == s
    decreases |s|
  {
    if |s| >= |w| { NotReplaced(s[1..], w, r); }
  }

  lemma {:induction false} ReplacedChars(s: string, w: string, r: string, c: char)
    requires |w| > 0 && c !in s && c !in r
    ensures c !in ReplaceAll(s, w, r)
    decreases |s|
  {
    if |s| >= |w| {
      if s[..|w|] == w {
        ReplacedChars(s[|w|..], w, r, c);
      } else {
        assert s[0] in s;
        ReplacedChars(s[1..], w, r, c);
      }
    }
  }

  // ----- stripping -----

  lemma {:induction false} LStripSplits(s: string)
    ensures Indent(s) + LStrip(s) == s
    ensures AllSpace(Indent(s))
    ensures LStrip(s) != [] ==> !IsSpace(LStrip(s)[0])
    decreases |s|
  {
    if s != [] && IsSpace(s[0]) {
      LStripSplits(s[1..]);
      assert Indent(s) == [s[0]] + Indent(s[1..]) && LStrip(s) == LStrip(s[1..]);
      hide Indent, LStrip, IsSpace;
      assert ([s[0]] + Indent(s[1..])) + LStrip(s[1..]) == [s[0]] + (Indent(s[1..]) + LStrip(s[1..]));
      assert s == [s[0]] + s[1..];
    }
  }

  lemma {:induction false} RStripPrefix(s: string)
    ensures RStrip(s) <= s
    ensures AllSpace(s[|RStrip(s)|..])
    ensures RStrip(s) != [] ==> !IsSpace(RStrip(s)[|RStrip(s)| - 1])
    decreases |s|
  {
    if s != [] && IsSpace(s[|s| - 1]) {
      var n := |s| - 1;
      var t := s[..n];
      assert RStrip(s) == RStrip(t) && AllSpace([s[n]]);
      RStripPrefix(t);
      SpaceConcat(t[|RStrip(t)|..], [s[n]]);
      hide RStrip, IsSpace, AllSpace;
      assert s[|RStrip(t)|..] == t[|RStrip(t)|..] + [s[n]];
    }
  }

  lemma {:induction false} LStripDrops(lead: string, s: string)
    requires AllSpace(lead)
    ensures LStrip(lead + s) == LStrip(s)
    ensures Indent(lead + s) == lead + Indent(s)
    decreases |lead|
  {
    if lead == [] {
      assert lead + s == s;
    } else {
      assert (lead + s)[1..] == lead[1..] + s;
      assert IsSpace(lead[0]);
      LStripDrops(lead[1..], s);
      assert lead + Indent(s) == [lead[0]] + (lead[1..] + Indent(s));
    }
  }

  lemma {:induction false} RStripDrops(s: string, trail: string)
    requires AllSpace(trail)
    ensures RStrip(s + trail) == RStrip(s)
    decreases |trail|
  {
    if trail == [] {
      assert s + trail == s;
    } else {
      var n := |trail| - 1;
      assert (s + trail)[..|s + trail| - 1] == s + trail[..n];
      assert (s + trail)[|s + trail| - 1] == trail[n];
      assert IsSpace(trail[n]);
      RStripDrops(s, trail[..n]);
    }
  }

  /** A string that `strip` leaves alone. */
  predicate Trimmed(s: string) {
    s != [] ==> !IsSpace(s[0]) && !IsSpace(s[|s| - 1])
  }

  /** `strip` finds the trimmed core between any two runs of white space. */
  lemma StripSandwich(lead: string, core: string, trail: string)
    requires AllSpace(lead) && AllSpace(trail) && Trimmed(core)
    ensures Strip(lead + core + trail) == core
  {
    assert lead + core + trail == lead + (core + trail);
    LStripDrops(lead, core + trail);
    if core == [] {
      assert core + trail == trail + [];
      LStripDrops(trail, []);
    } else {
      assert LStrip(core + trail) == core + trail;
      RStripDrops(core, trail);
    }
  }

  predicate IsComment(s: string) { s != "" && s[0] == '#' && Trimmed(s) }

  /** A comment as the tools write it into a file. */
  type Comment = s: string | IsComment(s) witness "#"

  lemma StripTrimmed(s: string)
    requires Trimmed(s)
    ensures Strip(s) == s && LStrip(s) == s && RStrip(s) == s
  {}

  /** `strip` cuts a string into white space, a trimmed core and white space. */
  lemma StripShape(s: string) returns (trail: string)
    ensures AllSpace(Indent(s)) && AllSpace(trail) && Trimmed(Strip(s))
    ensures s == Indent(s) + Strip(s) + trail
  {
    LStripSplits(s);
    hide LStrip, RStrip, Indent, IsSpace;
    var t := LStrip(s);
    RStripPrefix(t);
    trail := t[|Strip(s)|..];
    TakeDrop(Strip(s), t);
    assert Indent(s) + (Strip(s) + trail) == Indent(s) + Strip(s) + trail;
  }

  lemma TakeDrop(core: string, t: string)
    requires core <= t
    ensures t == core + t[|core|..] && (|core| > 0 ==> core[0] == t[0])
  {}

  lemma StripSubset(s: string)
    ensures forall c <- Strip(s) :: c in s
    ensures forall c <- Indent(s) :: c in s
  {
    var trail := StripShape(s);
    forall c | c in Strip(s) || c in Indent(s) ensures c in s {
      assert c in Indent(s) + Strip(s) + trail;
    }
  }

  // ----- reading and writing lines -----

  /** Universal newline translation of Python's text mode. */
  function Universal(s: string): (t: string)
    ensures '\r' !in t
  {
    if s == [] then []
    else if s[0] == '\r' then
      (if |s| > 1 && s[1] == '\n' then Universal(s[1..]) else "\n" + Universal(s[1..]))
    else [s[0]] + Universal(s[1..])
  }

  lemma {:induction false} UniversalIdentity(s: string)
    requires '\r' !in s
    ensures Universal(s) == s
    decreases |s|
  {
    if s != [] {
      assert s == [s[0]] + s[1..];
      assert s[0] != '\r';
      UniversalIdentity(s[1..]);
    }
  }

  /** Position of the first line break, or the length. */
  function BreakAt(brk: char -> bool, s: string): (i: nat)
    ensures i <= |s|
    ensures forall c <- s[..i] :: !brk(c)
    ensures i < |s| ==> brk(s[i])
  {
    if s == [] || brk(s[0]) then 0
    else
      var j := BreakAt(brk, s[1..]);
      assert s[..1 + j] == [s[0]] + s[1..][..j];
      1 + j
  }

  /** The lines of a text without their line ends; a final line end does not
      open one more line. */
  function Lines(brk: char -> bool, s: string): (ls: seq<string>)
    ensures forall l <- ls, c <- l :: !brk(c)
    ensures s == [] <==> ls == []
    decreases |s|
  {
    if s == [] then []
    else
      var i := BreakAt(brk, s);
      if i == |s| then
        assert s[..i] == s;
        [s]
      else [s[..i]] + Lines(brk, s[i + 1..])
  }

  function Join(ls: seq<string>): string {
    if |ls| == 0 then "" else if |ls| == 1 then ls[0] else ls[0] + "\n" + Join(ls[1..])
  }

  /** `"\n".join(ls) + "\n"`. */
  function Render(ls: seq<string>): string { Join(ls) + "\n" }

  predicate NoBreaks(brk: char -> bool, ls: seq<string>) {
    forall l <- ls, c <- l :: !brk(c)
  }

  lemma {:induction false} BreakAtFirst(brk: char -> bool, l: string, rest: string)
    requires brk('\n') && forall c <- l :: !brk(c)
    ensures BreakAt(brk, l + "\n" + rest) == |l|
    decreases |l|
  {
    if l == [] {
      assert l + "\n" + rest == "\n" + rest;
    } else {
      assert (l + "\n" + rest)[1..] == l[1..] + "\n" + rest;
      BreakAtFirst(brk, l[1..], rest);
    }
  }

  lemma LinesCons(brk: char -> bool, l: string, rest: string)
    requires brk('\n') && forall c <- l :: !brk(c)
    ensures Lines(brk, l + "\n" + rest) == [l] + Lines(brk, rest)
  {
    BreakAtFirst(brk, l, rest);
    var s := l + "\n" + rest;
    assert s[..|l|] == l && s[|l| + 1..] == rest;
  }

  lemma RenderCons(l: string, ls: seq<string>)
    ensures Render([l] + ls) == l + "\n" + if ls == [] then "" else Render(ls)
  {
    assert ([l] + ls)[1..] == ls;
    assert l + "\n" + "" == l + "\n";
    if ls != [] {
      assert l + "\n" + Join(ls) + "\n" == l + "\n" + (Join(ls) + "\n");
    }
  }

  /** Writing lines and splitting the text again gives the lines back; the
      empty list is the one exception, it comes back as one empty line. */
  lemma {:induction false} LinesOfRender(brk: char -> bool, ls: seq<string>)
    requires brk('\n') && NoBreaks(brk, ls)
    ensures Lines(brk, Render(ls)) == if ls == [] then [""] else ls
    decreases |ls|
  {
    if ls == [] {
      assert Render(ls) == "" + "\n" + "";
      LinesCons(brk, "", "");
    } else {
      assert ls == [ls[0]] + ls[1..];
      RenderCons(ls[0], ls[1..]);
      if |ls| == 1 {
        LinesCons(brk, ls[0], "");
      } else {
        LinesCons(brk, ls[0], Render(ls[1..]));
        LinesOfRender(brk, ls[1..]);
      }
    }
  }

  /** Every character of a rendered text is a newline or stands in a line. */
  lemma {:induction false} RenderChars(ls: seq<string>)
    ensures forall c <- Render(ls) :: c == '\n' || exists l <- ls :: c in l
    decreases |ls|
  {
    if ls != [] {
      assert ls == [ls[0]] + ls[1..];
      RenderCons(ls[0], ls[1..]);
      RenderChars(ls[1..]);
    }
  }

  // ----- what these functions compute, told from the characters -----

  /** The white space and the line breaks of ASCII. */
  lemma AsciiTables(c: char)
    requires c as int < 128
    ensures IsSpace(c) <==> c in [9 as char, 10 as char, 11 as char, 12 as char, 13 as char, 28 as char, 29 as char,
                                  30 as char, 31 as char, ' ']
    ensures IsLineBreak(c) <==> c in [10 as char, 11 as char, 12 as char, 13 as char, 28 as char, 29 as char,
                                      30 as char]
  {}

  /** `s[i..j]` is the text between the outer white space of `s`. */
  ghost predicate Core(s: string, i: nat, j: nat) {
    && i <= j <= |s|
    && (forall k :: 0 <= k < i || j <= k < |s| ==> IsSpace(s[k]))
    && (i < j ==> !IsSpace(s[i]) && !IsSpace(s[j - 1]))
  }

  lemma StripCore(s: string) returns (i: nat, j: nat)
    ensures Core(s, i, j) && Strip(s) == s[i..j]
  {
    var trail := StripShape(s);
    var lead, core := Indent(s), Strip(s);
    hide Indent, Strip, IsSpace;
    i, j := |lead|, |lead| + |core|;
    Inside(lead, core, trail);
  }

  lemma Inside(lead: string, core: string, trail: string)
    requires AllSpace(lead) && AllSpace(trail)
    requires Trimmed(core)
    ensures Core(lead + core + trail, |lead|, |lead| + |core|)
    ensures (lead + core + trail)[|lead|..|lead| + |core|] == core
  {
    hide IsSpace;
    var s := lead + core + trail;
    forall k | 0 <= k < |lead| || |lead| + |core| <= k < |s| ensures IsSpace(s[k]) {
      assert s[k] in if k < |lead| then lead else trail;
    }
    assert core != "" ==> s[|lead|] == core[0] && s[|lead| + |core| - 1] == core[|core| - 1];
  }

  lemma CoreStrip(s: string, i: nat, j: nat)
    requires Core(s, i, j)
    ensures Strip(s) == s[i..j]
  {
    StripSandwich(s[..i], s[i..j], s[j..]);
    assert s[..i] + s[i..j] + s[j..] == s;
  }

  /** Outer white space does not matter. */
  lemma StripOuter(lead: string, s: string, trail: string)
    requires AllSpace(lead) && AllSpace(trail)
    ensures Strip(lead + s + trail) == Strip(s)
  {
    var after := StripShape(s);
    var before, core := Indent(s), Strip(s);
    SpaceConcat(lead, before);
    SpaceConcat(after, trail);
    hide IsSpace, Strip, Indent, AllSpace, Trimmed;
    StripSandwich(lead + before, core, after + trail);
    Regroup(lead, before, core, after, trail);
  }

  lemma Regroup<T>(a: seq<T>, b: seq<T>, c: seq<T>, d: seq<T>, e: seq<T>)
    ensures a + (b + c + d) + e == (a + b) + c + (d + e)
  {}

  lemma SpaceConcat(s: string, t: string)
    requires AllSpace(s) && AllSpace(t)
    ensures AllSpace(s + t)
  {
    hide IsSpace;
    assert forall c <- s + t :: c in s || c in t;
  }

  /** The same letter, up to the case of an ASCII letter. */
  predicate SameLetter(c: char, d: char) {
    || c == d
    || ('A' <= c <= 'Z' && d as int == c as int + 32)
    || ('A' <= d <= 'Z' && c as int == d as int + 32)
  }

  lemma LowerSame(s: string, t: string)
    ensures Lower(s) == Lower(t) <==> |s| == |t| && forall k :: 0 <= k < |s| ==> SameLetter(s[k], t[k])
  {
    if |s| == |t| {
      forall k | 0 <= k < |s| ensures Lower(s)[k] == Lower(t)[k] <==> SameLetter(s[k], t[k]) {
        LowerLetter(s[k], t[k]);
      }
    }
  }

  lemma LowerLetter(c: char, d: char)
    ensures Lower([c])[0] == Lower([d])[0] <==> SameLetter(c, d)
  {}

  /** The word stands at a place of the text. */
  predicate StandsAt(s: string, w: string, i: nat) { i + |w| <= |s| && s[i..i + |w|] == w }

  /** The first occurrence of a word is replaced, and then those behind it. */
  lemma {:induction false} ReplaceFirst(a: string, w: string, b: string, r: string)
    requires |w| > 0 && forall i :: 0 <= i < |a| ==> !StandsAt(a + w + b, w, i)
    ensures ReplaceAll(a + w + b, w, r) == a + r + ReplaceAll(b, w, r)
    decreases |a|
  {
    if a == [] {
      ReplaceHere(w, b, r);
      hide ReplaceAll;
      assert a + w + b == w + b && a + r + ReplaceAll(b, w, r) == r + ReplaceAll(b, w, r);
    } else {
      StandsLater(a, w, b);
      ReplaceLater(a + w + b, w, r);
      hide ReplaceAll, StandsAt;
      ReplaceFirst(a[1..], w, b, r);
      Tail(a, w, b);
      Tail(a, r, ReplaceAll(b, w, r));
    }
  }

  lemma Tail<T>(a: seq<T>, b: seq<T>, c: seq<T>)
    requires a != []
    ensures (a + b + c)[1..] == a[1..] + b + c && (a + b + c)[0] == a[0]
    ensures a + b + c == [a[0]] + (a[1..] + b + c)
  {}

  lemma ReplaceHere(w: string, b: string, r: string)
    requires |w| > 0
    ensures ReplaceAll(w + b, w, r) == r + ReplaceAll(b, w, r)
  {
    assert (w + b)[..|w|] == w && (w + b)[|w|..] == b;
  }

  lemma ReplaceLater(s: string, w: string, r: string)
    requires 0 < |w| <= |s| && !StandsAt(s, w, 0)
    ensures ReplaceAll(s, w, r) == [s[0]] + ReplaceAll(s[1..], w, r)
  {
    assert s[0..0 + |w|] == s[..|w|];
  }

  lemma StandsLater(a: string, w: string, b: string)
    requires a != [] && forall i :: 0 <= i < |a| ==> !StandsAt(a + w + b, w, i)
    ensures forall i :: 0 <= i < |a| - 1 ==> !StandsAt(a[1..] + w + b, w, i)
  {
    var s, t := a + w + b, a[1..] + w + b;
    assert t == s[1..];
    forall i: nat | i < |a| - 1 ensures !StandsAt(t, w, i) {
      assert !StandsAt(s, w, i + 1);
      assert i + |w| <= |t| ==> t[i..i + |w|] == s[i + 1..i + 1 + |w|];
    }
  }

  /** The text behind the last slash. */
  function BaseName(s: string): string {
    if s == "" || s[|s| - 1] == '/' then "" else BaseName(s[..|s| - 1]) + [s[|s| - 1]]
  }

  lemma {:induction false} BaseNameEnd(s: string) returns (i: nat)
    ensures i <= |s| && BaseName(s) == s[i..]
    ensures '/' !in s[i..] && (i > 0 ==> s[i - 1] == '/')
    decreases |s|
  {
    if s == "" || s[|s| - 1] == '/' {
      i := |s|;
    } else {
      var n := |s| - 1;
      i := BaseNameEnd(s[..n]);
      assert s[i..] == s[..n][i..] + [s[n]];
    }
  }
}
