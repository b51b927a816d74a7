/** aosp_rc_merger.py: what the passes do to a file, told line by line. A service
    begins with a line whose stripped text begins with "service " and goes up to the
    next line whose stripped text begins with "service ", "on " or "import ". */
module RcLines {
  import opened RcMerger
  import opened Text

  ghost predicate OpensService(line: string) { "service " <= Strip(line) }

  ghost predicate Opens(line: string) {
    "service " <= Strip(line) || "on " <= Strip(line) || "import " <= Strip(line)
  }

  /** Line `s` opens the service that goes on up to line `i`. */
  ghost predicate ServiceUpTo(lines: seq<string>, s: int, i: nat)
    requires i <= |lines|
  {
    0 <= s < i && OpensService(lines[s]) && forall k :: s < k < i ==> !Opens(lines[k])
  }

  ghost predicate InService(lines: seq<string>, i: nat)
    requires i <= |lines|
  {
    exists s :: ServiceUpTo(lines, s, i)
  }

  /** The line is the flag, up to white space and a comment. */
  ghost predicate SaysFlag(flag: string, line: string) {
    && Strip(line) != ""
    && exists n :: 0 <= n <= |Strip(line)| && FlagUpTo(flag, Strip(line), n)
  }

  ghost predicate FlagUpTo(flag: string, s: string, n: nat)
    requires n <= |s|
  {
    '#' !in s[..n] && (n < |s| ==> s[n] == '#') && Strip(s[..n]) == flag
  }

  /** The service that goes on from line `s` up to line `i` has the flag in line `k`. */
  ghost predicate FlagIn(flag: string, lines: seq<string>, i: nat, s: int, k: int)
    requires i <= |lines|
  {
    ServiceUpTo(lines, s, i) && s < k < i && SaysFlag(flag, lines[k])
  }

  /** The service that goes on up to line `i` has the flag by then. */
  ghost predicate FlagBefore(flag: string, lines: seq<string>, i: nat)
    requires i <= |lines|
  {
    exists s, k :: FlagIn(flag, lines, i, s, k)
  }

  /** A service without the flag ends before line `i`. */
  ghost predicate Lacking(flag: string, lines: seq<string>, i: nat)
    requires i <= |lines|
  {
    (i < |lines| ==> Opens(lines[i])) && InService(lines, i) && !FlagBefore(flag, lines, i)
  }

  /** A line inside a service that shows how its lines are indented. */
  ghost predicate ShowsIndent(lines: seq<string>, k: nat)
    requires k < |lines|
  {
    && InService(lines, k) && !Opens(lines[k]) && Strip(lines[k]) != ""
    && (lines[k][0] == ' ' || lines[k][0] == '\t')
  }

  /** The indentation of the last such line before `i`, or four blanks. */
  ghost predicate IndentBefore(lines: seq<string>, i: nat, indent: string)
    requires i <= |lines|
  {
    || (indent == "    " && forall k :: 0 <= k < i ==> !ShowsIndent(lines, k))
    || exists k: nat :: k < i && ShowsIndent(lines, k) && indent == Indent(lines[k])
                        && forall n :: k < n < i ==> !ShowsIndent(lines, n)
  }

  /** `at[m]` is the place of line `m` after the pass. All lines stay, in their order;
      one line is inserted behind the last line of each service that lacks the flag,
      and nothing else. */
  ghost predicate FlagAdded(flag: string, suffix: string, lines: seq<string>, out: seq<string>, at: seq<nat>) {
    && |at| == |lines|
    && (if lines == [] then out == [] else at[0] == 0)
    && forall m :: 0 <= m < |lines| ==> LinePlaced(flag, suffix, lines, m, out, at, m)
  }

  /** Where the line behind place `m` is, or the end. */
  function After(out: seq<string>, at: seq<nat>, m: nat): nat {
    if m + 1 < |at| then at[m + 1] else |out|
  }

  /** Line `i` is in place `at[m]`, and what comes before the next line is right. */
  ghost predicate LinePlaced(flag: string, suffix: string, lines: seq<string>, i: nat,
                             out: seq<string>, at: seq<nat>, m: nat)
    requires i < |lines| && m < |at|
  {
    && at[m] < |out| && out[at[m]] == lines[i]
    && After(out, at, m) == at[m] + (if Lacking(flag, lines, i + 1) then 2 else 1)
    && (Lacking(flag, lines, i + 1) ==> InsertedAt(flag, suffix, lines, i, out, at[m]))
  }

  ghost predicate InsertedAt(flag: string, suffix: string, lines: seq<string>, i: nat, out: seq<string>, p: nat)
    requires i < |lines|
  {
    && p + 1 < |out|
    && exists indent :: IndentBefore(lines, i + 1, indent) && out[p + 1] == indent + RStrip(flag + "  " + suffix)
  }

  // ----- one line further -----

  lemma SectionOpens(line: string)
    ensures IsSection(line) <==> Opens(line)
    ensures IsService(line) <==> OpensService(line)
    ensures OpensService(line) ==> Opens(line)
  {
    hide Strip;
  }

  lemma HitsSays(flag: string, line: string)
    ensures Hits(flag, line) <==> SaysFlag(flag, line)
  {
    var s := Strip(line);
    var i := IndexOf(s, '#');
    assert FlagUpTo(flag, s, i) <==> Strip(s[..i]) == flag;
    hide Strip, IndexOf;
    forall n: nat | n <= |s| && FlagUpTo(flag, s, n) ensures n == i { FirstHash(s, i, n); }
    hide FlagUpTo;
  }

  lemma FirstHash(s: string, i: nat, n: nat)
    requires i <= |s| && '#' !in s[..i] && (i < |s| ==> s[i] == '#')
    requires n <= |s| && '#' !in s[..n] && (n < |s| ==> s[n] == '#')
    ensures i == n
  {
    assert forall k :: 0 <= k < i ==> s[k] in s[..i];
    assert forall k :: 0 <= k < n ==> s[k] in s[..n];
  }

  lemma ServiceNext(lines: seq<string>, s: int, i: nat)
    requires i < |lines|
    ensures ServiceUpTo(lines, s, i) ==> s < i
    ensures ServiceUpTo(lines, s, i + 1) <==>
            if s == i then OpensService(lines[i]) else ServiceUpTo(lines, s, i) && !Opens(lines[i])
  {
    hide Opens, OpensService;
  }

  lemma InServiceNext(lines: seq<string>, i: nat)
    requires i < |lines|
    ensures InService(lines, i + 1) <==>
            if Opens(lines[i]) then OpensService(lines[i]) else InService(lines, i)
  {
    SectionOpens(lines[i]);
    hide Opens, OpensService, ServiceUpTo;
    if InService(lines, i + 1) {
      var s :| ServiceUpTo(lines, s, i + 1);
      ServiceNext(lines, s, i);
    }
    ServiceNext(lines, i, i);
    if InService(lines, i) {
      var s :| ServiceUpTo(lines, s, i);
      ServiceNext(lines, s, i);
    }
  }

  lemma FlagNext(flag: string, lines: seq<string>, i: nat)
    requires i < |lines|
    ensures FlagBefore(flag, lines, i + 1) <==>
            !Opens(lines[i]) && (FlagBefore(flag, lines, i) || (InService(lines, i) && SaysFlag(flag, lines[i])))
  {
    hide Opens, OpensService, SaysFlag;
    if FlagBefore(flag, lines, i + 1) {
      var s, k :| FlagIn(flag, lines, i + 1, s, k);
      ServiceNext(lines, s, i);
      hide ServiceUpTo;
      if k < i { assert FlagIn(flag, lines, i, s, k); }
    }
    if FlagBefore(flag, lines, i) && !Opens(lines[i]) {
      var s, k :| FlagIn(flag, lines, i, s, k);
      ServiceNext(lines, s, i);
      assert FlagIn(flag, lines, i + 1, s, k);
    }
    if InService(lines, i) && SaysFlag(flag, lines[i]) && !Opens(lines[i]) {
      var s :| ServiceUpTo(lines, s, i);
      ServiceNext(lines, s, i);
      assert FlagIn(flag, lines, i + 1, s, i);
    }
  }

  lemma IndentNext(lines: seq<string>, i: nat, indent: string)
    requires i < |lines| && IndentBefore(lines, i, indent)
    ensures ShowsIndent(lines, i) ==> IndentBefore(lines, i + 1, Indent(lines[i]))
    ensures !ShowsIndent(lines, i) ==> IndentBefore(lines, i + 1, indent)
  {
    hide ShowsIndent, Indent;
  }

  // ----- the pass -----

  /** The rest of the output, from line `i` on. */
  ghost predicate RestPlaced(flag: string, suffix: string, lines: seq<string>, i: nat, indent: string,
                             out: seq<string>, at: seq<nat>)
    requires i <= |lines|
  {
    && |at| == |lines| - i
    && (if at == [] then |out| else at[0]) == (if Lacking(flag, lines, i) then 1 else 0)
    && (Lacking(flag, lines, i) ==> |out| > 0 && out[0] == indent + RStrip(flag + "  " + suffix))
    && forall m, n :: 0 <= m < |at| && n == i + m ==> LinePlaced(flag, suffix, lines, n, out, at, m)
  }

  /** What the loop still writes, in the state in which it comes to line `i`. */
  ghost function Rest(flag: string, suffix: string, lines: seq<string>, i: nat, indent: string): seq<string>
    requires i <= |lines|
  {
    AddRun(flag, RStrip(flag + "  " + suffix), InService(lines, i), FlagBefore(flag, lines, i), indent, lines[i..])
  }

  lemma AddRunNext(flag: string, app: string, inside: bool, has: bool, indent: string, lines: seq<string>, i: nat)
    requires i < |lines|
    ensures var l := lines[i];
      AddRun(flag, app, inside, has, indent, lines[i..])
      == if IsSection(l)
         then (if inside && !has then [indent + app] else []) + [l]
              + AddRun(flag, app, IsService(l), false, indent, lines[i + 1..])
         else [l] + AddRun(flag, app, inside, has || (inside && Hits(flag, l)),
                           if inside then NextIndent(l, indent) else indent, lines[i + 1..])
  {
    hide IsSection, IsService, Hits, NextIndent;
    assert lines[i..][0] == lines[i] && lines[i..][1..] == lines[i + 1..];
  }

  lemma RestNext(flag: string, suffix: string, lines: seq<string>, i: nat, indent: string) returns (next: string)
    requires i < |lines| && IndentBefore(lines, i, indent)
    ensures IndentBefore(lines, i + 1, next)
    ensures Rest(flag, suffix, lines, i, indent)
         == (if Lacking(flag, lines, i) then [indent + RStrip(flag + "  " + suffix)] else []) + [lines[i]]
            + Rest(flag, suffix, lines, i + 1, next)
  {
    var l, app := lines[i], RStrip(flag + "  " + suffix);
    var inside, has := InService(lines, i), FlagBefore(flag, lines, i);
    next := if inside && !Opens(l) then NextIndent(l, indent) else indent;
    IndentNext(lines, i, indent);
    assert next == if ShowsIndent(lines, i) then Indent(l) else indent by { hide InService, Opens, Strip, Indent; }
    hide IndentBefore, ShowsIndent, NextIndent;
    AddRunNext(flag, app, inside, has, indent, lines, i);
    SectionOpens(l);
    HitsSays(flag, l);
    InServiceNext(lines, i);
    FlagNext(flag, lines, i);
    if has { FlagNeedsService(flag, lines, i); }
    hide IsSection, IsService, Opens, OpensService, Hits, SaysFlag, InService, FlagBefore, AddRun, RStrip;
    assert [] + [l] == [l];
  }

  lemma FlagNeedsService(flag: string, lines: seq<string>, i: nat)
    requires i <= |lines| && FlagBefore(flag, lines, i)
    ensures InService(lines, i)
  {}

  /** The places of the rest, behind `pre`, whose last line is line `i`. */
  function Shifted(pre: seq<string>, at: seq<nat>): seq<nat>
    requires pre != []
  {
    [|pre| - 1] + seq(|at|, k requires 0 <= k < |at| => at[k] + |pre|)
  }

  lemma PlaceShifted(flag: string, suffix: string, lines: seq<string>, i: nat, pre: seq<string>,
                     out: seq<string>, at: seq<nat>, m: nat)
    requires i < |lines| && m < |at| && LinePlaced(flag, suffix, lines, i, out, at, m) && pre != []
    ensures LinePlaced(flag, suffix, lines, i, pre + out, Shifted(pre, at), m + 1)
  {
    hide Lacking, IndentBefore;
    var next := Shifted(pre, at);
    assert next[m + 1] == at[m] + |pre| && (pre + out)[next[m + 1]] == out[at[m]];
    if Lacking(flag, lines, i + 1) {
      assert (pre + out)[next[m + 1] + 1] == out[at[m] + 1];
    }
  }

  /** The line itself, with what is inserted behind it. */
  lemma FirstPlaced(flag: string, suffix: string, lines: seq<string>, i: nat, indent: string, pre: seq<string>,
                    out: seq<string>, at: seq<nat>)
    requires i < |lines| && IndentBefore(lines, i + 1, indent)
    requires RestPlaced(flag, suffix, lines, i + 1, indent, out, at)
    requires pre != [] && pre[|pre| - 1] == lines[i]
    ensures LinePlaced(flag, suffix, lines, i, pre + out, Shifted(pre, at), 0)
  {
    hide Lacking, IndentBefore;
    assert After(pre + out, Shifted(pre, at), 0) == |pre| + (if at == [] then |out| else at[0]);
    if Lacking(flag, lines, i + 1) { assert (pre + out)[|pre|] == out[0]; }
  }

  lemma RestCons(flag: string, suffix: string, lines: seq<string>, i: nat, indent: string, next: string,
                 out: seq<string>, at: seq<nat>)
    requires i < |lines| && IndentBefore(lines, i + 1, next)
    requires RestPlaced(flag, suffix, lines, i + 1, next, out, at)
    ensures var pre := (if Lacking(flag, lines, i) then [indent + RStrip(flag + "  " + suffix)] else []) + [lines[i]];
            RestPlaced(flag, suffix, lines, i, indent, pre + out, Shifted(pre, at))
  {
    var app := RStrip(flag + "  " + suffix);
    var pre := (if Lacking(flag, lines, i) then [indent + app] else []) + [lines[i]];
    FirstPlaced(flag, suffix, lines, i, next, pre, out, at);
    hide IndentBefore, Lacking, LinePlaced, RStrip;
    var places := Shifted(pre, at);
    forall m, n | 0 <= m < |places| && n == i + m ensures LinePlaced(flag, suffix, lines, n, pre + out, places, m) {
      if m > 0 { PlaceShifted(flag, suffix, lines, n, pre, out, at, m - 1); }
    }
    assert (pre + out)[0] == pre[0] && places[0] == |pre| - 1;
  }

  lemma {:induction false} RestPlaces(flag: string, suffix: string, lines: seq<string>, i: nat, indent: string)
    returns (at: seq<nat>)
    requires i <= |lines| && IndentBefore(lines, i, indent)
    ensures RestPlaced(flag, suffix, lines, i, indent, Rest(flag, suffix, lines, i, indent), at)
    decreases |lines| - i
  {
    if i == |lines| {
      at := [];
      if FlagBefore(flag, lines, i) { FlagNeedsService(flag, lines, i); }
      hide InService, FlagBefore, IndentBefore;
    } else {
      hide IndentBefore, Rest, RestPlaced, Lacking, RStrip;
      var next := RestNext(flag, suffix, lines, i, indent);
      var rest := RestPlaces(flag, suffix, lines, i + 1, next);
      var out := Rest(flag, suffix, lines, i + 1, next);
      var pre := (if Lacking(flag, lines, i) then [indent + RStrip(flag + "  " + suffix)] else []) + [lines[i]];
      at := Shifted(pre, rest);
      RestCons(flag, suffix, lines, i, indent, next, out, rest);
    }
  }

  /** What `add_flag_to_services` does, line by line. */
  lemma FlagLines(flag: string, suffix: string, lines: seq<string>) returns (at: seq<nat>)
    ensures FlagAdded(flag, suffix, lines, AddFlag(flag, suffix, lines), at)
  {
    assert IndentBefore(lines, 0, "    ") && !InService(lines, 0) && !FlagBefore(flag, lines, 0);
    at := RestPlaces(flag, suffix, lines, 0, "    ");
    AddRunIsAddFlag(flag, suffix, lines);
    assert lines[0..] == lines;
    hide LinePlaced, InService, FlagBefore, IndentBefore;
  }

  /** A service that ends before line `j` has the flag behind its opening line `s` and
      before line `j`, if the pass takes its own line for the flag. */
  lemma ServiceFlagged(flag: string, suffix: string, lines: seq<string>, out: seq<string>, at: seq<nat>, s: nat, j: nat)
    returns (p: nat)
    requires FlagAdded(flag, suffix, lines, out, at) && SaysFlag(flag, RStrip(flag + "  " + suffix))
    requires s < j <= |lines| && ServiceUpTo(lines, s, j) && (j < |lines| ==> Opens(lines[j]))
    ensures at[s] < p < |out| && (j < |lines| ==> p < at[j])
    ensures SaysFlag(flag, out[p])
  {
    hide Opens, OpensService, SaysFlag, IndentBefore;
    if FlagBefore(flag, lines, j) {
      var s', k :| FlagIn(flag, lines, j, s', k);
      assert s' == s by { OneService(lines, s, s', j); }
      p := at[k];
      assert LinePlaced(flag, suffix, lines, k, out, at, k);
      PlacesGrow(flag, suffix, lines, out, at, s, k);
      if j < |lines| { PlacesGrow(flag, suffix, lines, out, at, k, j); }
    } else {
      assert InService(lines, j) && LinePlaced(flag, suffix, lines, j - 1, out, at, j - 1);
      p := at[j - 1] + 1;
      if s < j - 1 { PlacesGrow(flag, suffix, lines, out, at, s, j - 1); }
      var indent :| IndentBefore(lines, j, indent) && out[p] == indent + RStrip(flag + "  " + suffix);
      IndentIsSpace(lines, j, indent);
      IndentedSays(flag, indent, RStrip(flag + "  " + suffix));
    }
  }

  lemma OneService(lines: seq<string>, s: int, t: int, j: nat)
    requires j <= |lines| && ServiceUpTo(lines, s, j) && ServiceUpTo(lines, t, j)
    ensures s == t
  {
    SectionOpens(lines[s]);
    SectionOpens(lines[t]);
    hide Opens, OpensService;
  }

  lemma {:induction false} PlacesGrow(flag: string, suffix: string, lines: seq<string>, out: seq<string>, at: seq<nat>,
                                      i: nat, j: nat)
    requires FlagAdded(flag, suffix, lines, out, at) && i < j < |lines|
    ensures at[i] < at[j]
    decreases j
  {
    assert LinePlaced(flag, suffix, lines, j - 1, out, at, j - 1);
    if i < j - 1 { PlacesGrow(flag, suffix, lines, out, at, i, j - 1); }
    hide LinePlaced, Lacking;
  }

  lemma IndentIsSpace(lines: seq<string>, i: nat, indent: string)
    requires i <= |lines| && IndentBefore(lines, i, indent)
    ensures AllSpace(indent)
  {
    hide ShowsIndent;
    if k: nat :| k < i && indent == Indent(lines[k]) { LStripSplits(lines[k]); }
  }

  lemma IndentedSays(flag: string, indent: string, line: string)
    requires AllSpace(indent) && SaysFlag(flag, line)
    ensures SaysFlag(flag, indent + line)
  {
    InsertedLine(line, indent);
    hide Strip, FlagUpTo;
  }

  ghost predicate LinesDefused(note: Comment, lines: seq<string>, out: seq<string>) {
    && |out| == |lines|
    && forall i :: 0 <= i < |lines| ==> DefusedTo(note, lines, i, out[i])
  }

  ghost predicate DefusedTo(note: Comment, lines: seq<string>, i: nat, line: string)
    requires i < |lines|
  {
    line == if InService(lines, i) && Strip(lines[i]) == "critical" then Indent(lines[i]) + note else lines[i]
  }

  /** What `defuse_critical_services` does, line by line: in a service, `critical` gives
      way to the note, behind its indentation. */
  lemma DefusedLines(note: Comment, lines: seq<string>)
    ensures LinesDefused(note, lines, Defuse(note, lines))
  {
    DefuseRunIsDefuse(note, lines);
    DefusedFrom(note, lines, 0);
    assert lines[0..] == lines;
    hide DefuseRun, InService, Strip, Indent;
  }

  lemma {:induction false} DefusedFrom(note: Comment, lines: seq<string>, i: nat)
    requires i <= |lines|
    ensures var out := DefuseRun(note, InService(lines, i), lines[i..]);
            && |out| == |lines| - i
            && forall m, n :: 0 <= m < |out| && n == i + m ==> DefusedTo(note, lines, n, out[m])
    decreases |lines| - i
  {
    if i < |lines| {
      var l := lines[i];
      DefusedFrom(note, lines, i + 1);
      assert lines[i..][0] == l && lines[i..][1..] == lines[i + 1..];
      SectionOpens(l);
      InServiceNext(lines, i);
      CriticalOpensNothing(l);
      hide IsSection, IsService, Opens, OpensService, InService, Indent, Strip;
      var now := InService(lines, i + 1);
      assert DefuseRun(note, InService(lines, i), lines[i..])
          == [if now then DefuseLine(note, l) else l] + DefuseRun(note, now, lines[i + 1..]);
      hide DefuseRun;
    }
  }

  lemma CriticalOpensNothing(line: string)
    ensures Strip(line) == "critical" ==> !Opens(line)
  {
    if Strip(line) == "critical" {
      assert "critical"[0] == 'c' && "service "[0] == 's' && "on "[0] == 'o' && "import "[0] == 'i';
    }
    hide Strip;
  }

  /** What `run_rc_merger` does to a file that is no `init.rc`: the lines get the
      `oneshot` flag if the file is of `/system_ext/`, and are then defused. */
  lemma FileLines(text: string, systemExt: bool) returns (at: seq<nat>, flagged: seq<string>, out: seq<string>)
    ensures if systemExt
            then FlagAdded("oneshot", "# Added to prevent restarts on failure", LinesOf(text), flagged, at)
            else flagged == LinesOf(text)
    ensures LinesDefused(DisabledNote(), flagged, out)
    ensures DisabledNote() == "# critical  # Disabled to prevent boot-loop/reboots"
    ensures RcMerged("oneshot", OneshotNote(), DisabledNote(), text, false, systemExt) == Render(out)
  {
    OneshotText();
    DisabledText();
    flagged := LinesOf(text);
    at := [];
    if systemExt {
      flagged := AddFlag("oneshot", OneshotNote(), LinesOf(text));
      at := FlagLines("oneshot", OneshotNote(), LinesOf(text));
    }
    out := Defuse(DisabledNote(), flagged);
    DefusedLines(DisabledNote(), flagged);
    OneshotIsWord();
    WordRecognised("oneshot", OneshotNote());
    hide FlagAdded, LinesDefused, AddFlag, Defuse, LinesOf, Appended, OneshotNote, DisabledNote;
    MergedText("oneshot", OneshotNote(), DisabledNote(), text, systemExt);
  }

  lemma OneshotText()
    ensures OneshotNote() == "# Added to prevent restarts on failure"
  {}

  lemma DisabledText()
    ensures DisabledNote() == "# critical  # Disabled to prevent boot-loop/reboots"
  {}

  lemma SelfCheckText()
    ensures SelfCheck() == "reboot_on_failure reboot,boringssl-self-check-failed"
  {}
}
