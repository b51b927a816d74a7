/** aosp_rc_merger.py: the line passes over Android init files. Each pass is a
    method over the lines, proved against a specification that first parses
    the lines into sections; the laws of the passes are proved about the
    specification and, at the end, about whole file texts. */
module RcMerger {
  import opened Text

  predicate StartsSection(stripped: string) {
    StartsWith(stripped, "service ") || StartsWith(stripped, "on ") || StartsWith(stripped, "import ")
  }

  predicate IsSection(line: string) { StartsSection(Strip(line)) }

  predicate IsService(line: string) { StartsWith(Strip(line), "service ") }

  /** A stripped line without its comment. */
  function Command(stripped: string): string { Strip(stripped[..IndexOf(stripped, '#')]) }

  predicate Hits(flag: string, line: string) {
    |Strip(line)| > 0 && Command(Strip(line)) == flag
  }

  /** The text `add_flag_to_services` appends behind the indentation. */
  function Appended(flag: string, suffix: string): string { RStrip(flag + "  " + suffix) }

  predicate Indented(line: string) { |line| > 0 && (line[0] == ' ' || line[0] == '\t') }

  /** The indentation carried on after a line of a service block. */
  function NextIndent(line: string, indent: string): string {
    if |Strip(line)| > 0 && Indented(line) then Indent(line) else indent
  }

  const DefaultIndent := "    "

  // ----- sections -----

  /** A section: its header line and the lines up to the next header. */
  datatype Block = Block(header: string, body: seq<string>)

  predicate Plain(lines: seq<string>) { forall l <- lines :: !IsSection(l) }

  /** Number of lines before the first section header. */
  function BodyLen(lines: seq<string>): (n: nat)
    ensures n <= |lines|
    ensures Plain(lines[..n])
    ensures n < |lines| ==> IsSection(lines[n])
  {
    if lines == [] || IsSection(lines[0]) then 0
    else
      var m := BodyLen(lines[1..]);
      assert lines[..1 + m] == [lines[0]] + lines[1..][..m];
      1 + m
  }

  function Blocks(lines: seq<string>): seq<Block>
    requires lines == [] || IsSection(lines[0])
  {
    if lines == [] then []
    else
      var n := BodyLen(lines[1..]);
      [Block(lines[0], lines[1..][..n])] + Blocks(lines[1..][n..])
  }

  function Preamble(lines: seq<string>): seq<string> { lines[..BodyLen(lines)] }

  function Sections(lines: seq<string>): seq<Block> { Blocks(lines[BodyLen(lines)..]) }

  function Flatten(bs: seq<Block>): seq<string> {
    if bs == [] then [] else [bs[0].header] + bs[0].body + Flatten(bs[1..])
  }

  predicate WellFormed(bs: seq<Block>) {
    forall b <- bs :: IsSection(b.header) && Plain(b.body)
  }

  lemma HeadBodyRest<T>(s: seq<T>, n: nat)
    requires n < |s|
    ensures s == [s[0]] + s[1..][..n] + s[1..][n..]
  {}

  lemma ConsConcat<T>(x: T, a: seq<T>, b: seq<T>)
    ensures ([x] + a + b)[0] == x && ([x] + a + b)[1..] == a + b
    ensures (a + b)[..|a|] == a && (a + b)[|a|..] == b
  {}

  lemma WellFormedCons(b: Block, bs: seq<Block>)
    requires IsSection(b.header) && Plain(b.body) && WellFormed(bs)
    ensures WellFormed([b] + bs)
  {
    hide IsSection, Plain;
    assert forall c <- [b] + bs :: c == b || c in bs;
  }

  lemma {:induction false} FlattenBlocks(lines: seq<string>)
    requires lines == [] || IsSection(lines[0])
    ensures Flatten(Blocks(lines)) == lines
    ensures WellFormed(Blocks(lines))
    decreases |lines|
  {
    hide IsSection, Plain;
    if lines != [] {
      var n := BodyLen(lines[1..]);
      var b, rest := Block(lines[0], lines[1..][..n]), lines[1..][n..];
      assert Blocks(lines) == [b] + Blocks(rest);
      hide Blocks, BodyLen;
      FlattenBlocks(rest);
      FlattenCons(b, Blocks(rest));
      WellFormedCons(b, Blocks(rest));
      hide Flatten, WellFormed;
      HeadBodyRest(lines, n);
    }
  }

  lemma BodyLenCons(l: string, lines: seq<string>)
    ensures BodyLen([l] + lines) == if IsSection(l) then 0 else 1 + BodyLen(lines)
  {
    hide IsSection, Plain;
    assert ([l] + lines)[1..] == lines;
  }

  lemma BodyLenNone(rest: seq<string>)
    requires rest == [] || IsSection(rest[0])
    ensures BodyLen(rest) == 0
  {}

  lemma PlainTail(body: seq<string>)
    requires Plain(body) && body != []
    ensures !IsSection(body[0]) && Plain(body[1..])
  {
    hide IsSection;
    assert body[0] in body && forall l <- body[1..] :: l in body;
  }

  lemma {:induction false} BodyLenSplit(body: seq<string>, rest: seq<string>)
    requires Plain(body) && (rest == [] || IsSection(rest[0]))
    ensures BodyLen(body + rest) == |body|
    decreases |body|
  {
    hide IsSection, Plain, BodyLen;
    if body == [] {
      assert body + rest == rest;
      BodyLenNone(rest);
    } else {
      PlainTail(body);
      BodyLenSplit(body[1..], rest);
      BodyLenCons(body[0], body[1..] + rest);
      assert body + rest == [body[0]] + (body[1..] + rest);
    }
  }

  lemma BlocksCons(b: Block, rest: seq<string>)
    requires IsSection(b.header) && Plain(b.body) && (rest == [] || IsSection(rest[0]))
    ensures Blocks([b.header] + b.body + rest) == [b] + Blocks(rest)
  {
    BodyLenSplit(b.body, rest);
    hide BodyLen, IsSection, Plain;
    ConsConcat(b.header, b.body, rest);
    var all := [b.header] + b.body + rest;
    assert Blocks(all) == [Block(all[0], all[1..][..|b.body|])] + Blocks(all[1..][|b.body|..]);
    hide Blocks;
  }

  lemma {:induction false} BlocksFlatten(bs: seq<Block>)
    requires WellFormed(bs)
    ensures Flatten(bs) == [] || IsSection(Flatten(bs)[0])
    ensures Blocks(Flatten(bs)) == bs
    decreases |bs|
  {
    if bs != [] {
      BlocksFlatten(bs[1..]);
      BlocksCons(bs[0], Flatten(bs[1..]));
      FlattenCons(bs[0], bs[1..]);
      assert bs == [bs[0]] + bs[1..];
      hide Flatten, Blocks;
    }
  }

  /** Parsing lines put together from a preamble and sections. */
  lemma Reparse(pre: seq<string>, bs: seq<Block>)
    requires Plain(pre) && WellFormed(bs)
    ensures Preamble(pre + Flatten(bs)) == pre
    ensures Sections(pre + Flatten(bs)) == bs
  {
    BlocksFlatten(bs);
    BodyLenSplit(pre, Flatten(bs));
    var ls := pre + Flatten(bs);
    assert ls[..|pre|] == pre && ls[|pre|..] == Flatten(bs);
  }

  lemma Parse(lines: seq<string>)
    ensures lines == Preamble(lines) + Flatten(Sections(lines))
    ensures Plain(Preamble(lines)) && WellFormed(Sections(lines))
  {
    hide Flatten, Blocks, BodyLen, IsSection, Plain, WellFormed;
    var k := BodyLen(lines);
    FlattenBlocks(lines[k..]);
    assert lines[..k] + lines[k..] == lines;
  }

  // ----- adding a flag -----

  predicate HasFlag(flag: string, body: seq<string>) { exists l <- body :: Hits(flag, l) }

  function LastIndent(body: seq<string>, indent: string): string {
    if body == [] then indent else LastIndent(body[1..], NextIndent(body[0], indent))
  }

  /** Every service block without the flag gets one more line. The indentation
      is the last one seen in any service block so far. */
  function Patch(flag: string, app: string, bs: seq<Block>, indent: string): seq<Block> {
    if bs == [] then []
    else
      var b := bs[0];
      if !IsService(b.header) then [b] + Patch(flag, app, bs[1..], indent)
      else
        var ind := LastIndent(b.body, indent);
        [if HasFlag(flag, b.body) then b else Block(b.header, b.body + [ind + app])]
        + Patch(flag, app, bs[1..], ind)
  }

  function AddFlag(flag: string, suffix: string, lines: seq<string>): seq<string> {
    Preamble(lines) + Flatten(Patch(flag, Appended(flag, suffix), Sections(lines), DefaultIndent))
  }

  /** What the loop of `add_flag_to_services` still appends from a given state. */
  ghost function AddRun(flag: string, app: string, inside: bool, has: bool, indent: string,
                        lines: seq<string>): seq<string>
    decreases |lines|
  {
    if lines == [] then (if inside && !has then [indent + app] else [])
    else if IsSection(lines[0]) then
      (if inside && !has then [indent + app] else []) + [lines[0]]
      + AddRun(flag, app, IsService(lines[0]), false, indent, lines[1..])
    else
      [lines[0]]
      + AddRun(flag, app, inside, has || (inside && Hits(flag, lines[0])),
               if inside then NextIndent(lines[0], indent) else indent, lines[1..])
  }

  lemma FlattenCons(b: Block, bs: seq<Block>)
    ensures Flatten([b] + bs) == [b.header] + b.body + Flatten(bs)
  {
    assert ([b] + bs)[1..] == bs;
  }

  /** Parsing, one line at a time. */
  lemma ParseStep(lines: seq<string>)
    requires lines != []
    ensures var l, rest := lines[0], lines[1..];
            if IsSection(l)
            then Preamble(lines) == [] && Sections(lines) == [Block(l, Preamble(rest))] + Sections(rest)
            else Preamble(lines) == [l] + Preamble(rest) && Sections(lines) == Sections(rest)
  {
    var l, rest := lines[0], lines[1..];
    var n := BodyLen(rest);
    assert lines == [l] + rest;
    BodyLenCons(l, rest);
    hide IsSection, Plain, BodyLen;
    if IsSection(l) {
      assert lines[..0] == [] && lines[0..] == lines;
      assert Blocks(lines) == [Block(l, rest[..n])] + Blocks(rest[n..]);
    } else {
      hide Blocks;
      assert lines[..1 + n] == [l] + rest[..n] && lines[1 + n..] == rest[n..];
    }
  }

  lemma PatchCons(flag: string, app: string, b: Block, bs: seq<Block>, indent: string)
    ensures Patch(flag, app, [b] + bs, indent)
         == if !IsService(b.header) then [b] + Patch(flag, app, bs, indent)
            else var ind := LastIndent(b.body, indent);
                 [if HasFlag(flag, b.body) then b else Block(b.header, b.body + [ind + app])]
                 + Patch(flag, app, bs, ind)
  {
    assert ([b] + bs)[1..] == bs;
  }

  /** What the pass appends behind the lines of the current section. */
  ghost function Close(flag: string, app: string, open: bool, body: seq<string>, indent: string): seq<string> {
    if open && !HasFlag(flag, body) then [indent + app] else []
  }

  lemma PatchFlatten(flag: string, app: string, b: Block, bs: seq<Block>, indent: string)
    ensures var svc := IsService(b.header);
            var ind := if svc then LastIndent(b.body, indent) else indent;
            Flatten(Patch(flag, app, [b] + bs, indent))
            == [b.header] + (b.body + Close(flag, app, svc, b.body, ind) + Flatten(Patch(flag, app, bs, ind)))
  {
    PatchCons(flag, app, b, bs, indent);
    var svc := IsService(b.header);
    var ind := if svc then LastIndent(b.body, indent) else indent;
    hide Patch, Flatten, IsService, LastIndent, HasFlag;
    var close, rest := Close(flag, app, svc, b.body, ind), Patch(flag, app, bs, ind);
    assert b.body + [] == b.body;
    assert Patch(flag, app, [b] + bs, indent) == [Block(b.header, b.body + close)] + rest;
    FlattenCons(Block(b.header, b.body + close), rest);
    hide Close;
    assert [b.header] + (b.body + close) + Flatten(rest) == [b.header] + (b.body + close + Flatten(rest));
  }

  lemma HasFlagCons(flag: string, l: string, body: seq<string>)
    ensures HasFlag(flag, [l] + body) <==> Hits(flag, l) || HasFlag(flag, body)
  {
    assert ([l] + body)[0] == l;
    forall k <- body ensures k in [l] + body {}
  }

  /** The specification from inside a section: the rest `body` of that section,
      then the sections `bs`. */
  ghost function AddOut(flag: string, app: string, inside: bool, has: bool, indent: string,
                        body: seq<string>, bs: seq<Block>): seq<string> {
    var ind := if inside then LastIndent(body, indent) else indent;
    body + Close(flag, app, inside && !has, body, ind) + Flatten(Patch(flag, app, bs, ind))
  }

  ghost function AddRest(flag: string, app: string, inside: bool, has: bool, indent: string,
                         lines: seq<string>): seq<string> {
    AddOut(flag, app, inside, has, indent, Preamble(lines), Sections(lines))
  }

  lemma CloseEmpty(flag: string, app: string, open: bool, indent: string)
    ensures Close(flag, app, open, [], indent) == if open then [indent + app] else []
    ensures LastIndent([], indent) == indent
  {}

  lemma AddOutHeader(flag: string, app: string, inside: bool, has: bool, indent: string, b: Block, bs: seq<Block>)
    ensures AddOut(flag, app, inside, has, indent, [], [b] + bs)
         == (if inside && !has then [indent + app] else []) + [b.header]
            + AddOut(flag, app, IsService(b.header), false, indent, b.body, bs)
  {
    CloseEmpty(flag, app, inside && !has, indent);
    hide Flatten, Patch, IsService, LastIndent, HasFlag, Close;
    PatchFlatten(flag, app, b, bs, indent);
    assert AddOut(flag, app, inside, has, indent, [], [b] + bs)
        == [] + Close(flag, app, inside && !has, [], indent) + Flatten(Patch(flag, app, [b] + bs, indent));
  }

  lemma AddRestHeader(flag: string, app: string, inside: bool, has: bool, indent: string, lines: seq<string>)
    requires lines != [] && IsSection(lines[0])
    ensures AddRest(flag, app, inside, has, indent, lines)
         == (if inside && !has then [indent + app] else []) + [lines[0]]
            + AddRest(flag, app, IsService(lines[0]), false, indent, lines[1..])
  {
    ParseStep(lines);
    hide AddOut, IsService, Sections, Preamble;
    AddOutHeader(flag, app, inside, has, indent, Block(lines[0], Preamble(lines[1..])), Sections(lines[1..]));
  }

  lemma AddOutPlain(flag: string, app: string, inside: bool, has: bool, indent: string,
                    l: string, pre: seq<string>, bs: seq<Block>)
    ensures AddOut(flag, app, inside, has, indent, [l] + pre, bs)
         == [l] + AddOut(flag, app, inside, has || (inside && Hits(flag, l)),
                         if inside then NextIndent(l, indent) else indent, pre, bs)
  {
    HasFlagCons(flag, l, pre);
    hide Hits, NextIndent, HasFlag, Flatten, Patch;
    assert ([l] + pre)[1..] == pre;
    assert LastIndent([l] + pre, indent) == LastIndent(pre, NextIndent(l, indent));
    hide LastIndent;
    assert AddOut(flag, app, inside, has, indent, [l] + pre, bs)
        == [l] + (AddOut(flag, app, inside, has || (inside && Hits(flag, l)),
                         if inside then NextIndent(l, indent) else indent, pre, bs));
  }

  lemma AddRestPlain(flag: string, app: string, inside: bool, has: bool, indent: string, lines: seq<string>)
    requires lines != [] && !IsSection(lines[0])
    ensures AddRest(flag, app, inside, has, indent, lines)
         == [lines[0]]
            + AddRest(flag, app, inside, has || (inside && Hits(flag, lines[0])),
                      if inside then NextIndent(lines[0], indent) else indent, lines[1..])
  {
    ParseStep(lines);
    hide AddOut, Hits, NextIndent, Sections, Preamble;
    AddOutPlain(flag, app, inside, has, indent, lines[0], Preamble(lines[1..]), Sections(lines[1..]));
  }

  /** The single pass computes the block-wise specification. */
  lemma {:induction false} AddRunBlocks(flag: string, app: string, inside: bool, has: bool, indent: string,
                                        lines: seq<string>)
    ensures AddRun(flag, app, inside, has, indent, lines) == AddRest(flag, app, inside, has, indent, lines)
    decreases |lines|
  {
    if lines == [] {
      assert lines[..0] == [] && lines[0..] == [];
    } else if IsSection(lines[0]) {
      AddRestHeader(flag, app, inside, has, indent, lines);
      AddRunBlocks(flag, app, IsService(lines[0]), false, indent, lines[1..]);
    } else {
      AddRestPlain(flag, app, inside, has, indent, lines);
      AddRunBlocks(flag, app, inside, has || (inside && Hits(flag, lines[0])),
                   if inside then NextIndent(lines[0], indent) else indent, lines[1..]);
    }
  }

  lemma AddRunIsAddFlag(flag: string, suffix: string, lines: seq<string>)
    ensures AddRun(flag, Appended(flag, suffix), false, false, DefaultIndent, lines) == AddFlag(flag, suffix, lines)
  {
    AddRunBlocks(flag, Appended(flag, suffix), false, false, DefaultIndent, lines);
  }

  /** One turn of the loop at a section header. */
  lemma HeaderStep(flag: string, app: string, inside: bool, has: bool, indent: string,
                   out: seq<string>, lines: seq<string>)
    requires lines != [] && IsSection(lines[0])
    ensures out + AddRun(flag, app, inside, has, indent, lines)
         == (if inside && !has then out + [indent + app] else out) + [lines[0]]
            + AddRun(flag, app, IsService(lines[0]), false, indent, lines[1..])
  {}

  /** One turn of the loop at any other line. */
  lemma LineStep(flag: string, app: string, inside: bool, has: bool, indent: string,
                 out: seq<string>, lines: seq<string>)
    requires lines != [] && !IsSection(lines[0])
    ensures out + AddRun(flag, app, inside, has, indent, lines)
         == out + [lines[0]]
            + AddRun(flag, app, has := has || (inside && Hits(flag, lines[0])), inside := inside,
                     indent := if inside then NextIndent(lines[0], indent) else indent, lines := lines[1..])
  {}

  method AddFlagToServices(lines: seq<string>, flag: string, suffix: string) returns (modified: seq<string>)
    ensures modified == AddFlag(flag, suffix, lines)
  {
    modified := [];
    var inside, has, indent := false, false, DefaultIndent;
    var app := Appended(flag, suffix);
    ghost var all := AddRun(flag, app, false, false, DefaultIndent, lines);
    for i := 0 to |lines|
      invariant modified + AddRun(flag, app, inside, has, indent, lines[i..]) == all
    {
      var line := lines[i];
      var stripped := Strip(line);
      assert lines[i..][0] == line && lines[i..][1..] == lines[i + 1..];
      if StartsSection(stripped) {
        HeaderStep(flag, app, inside, has, indent, modified, lines[i..]);
        if inside && !has {
          modified := modified + [indent + app];
        }
        inside := StartsWith(stripped, "service ");
        has := false;
        modified := modified + [line];
        continue;
      }
      LineStep(flag, app, inside, has, indent, modified, lines[i..]);
      if inside && |stripped| > 0 {
        if Command(stripped) == flag {
          has := true;
        }
        if Indented(line) {
          indent := Indent(line);
        }
      }
      modified := modified + [line];
    }
    if inside && !has {
      modified := modified + [indent + app];
    }
    AddRunIsAddFlag(flag, suffix, lines);
  }

  // ----- what adding a flag promises -----

  /** The line the pass inserts is recognised as the flag and opens no section. */
  predicate Recognisable(flag: string, suffix: string) {
    var s := Strip(Appended(flag, suffix));
    s != "" && Command(s) == flag && !StartsSection(s)
  }

  predicate AllFlagged(flag: string, bs: seq<Block>) {
    forall b <- bs :: IsService(b.header) ==> HasFlag(flag, b.body)
  }

  /** The indentation handed on is white space only. */
  lemma {:induction false} LastIndentSpace(body: seq<string>, indent: string)
    requires AllSpace(indent)
    ensures AllSpace(LastIndent(body, indent))
    decreases |body|
  {
    if body != [] {
      LStripSplits(body[0]);
      LastIndentSpace(body[1..], NextIndent(body[0], indent));
    }
  }

  lemma InsertedLine(app: string, indent: string)
    requires AllSpace(indent)
    ensures Strip(indent + app) == Strip(app)
  {
    LStripDrops(indent, app);
  }

  /** Exactly the unflagged service blocks grow, each by one line at its end
      that is the appended text behind white space; everything else, and in
      particular every original line and its place, stays. */
  lemma {:induction false} PatchExact(flag: string, app: string, bs: seq<Block>, indent: string, k: nat)
    requires k < |bs| && AllSpace(indent)
    ensures |Patch(flag, app, bs, indent)| == |bs|
    ensures var b, p := bs[k], Patch(flag, app, bs, indent)[k];
            && p.header == b.header
            && (if IsService(b.header) && !HasFlag(flag, b.body)
                then |p.body| == |b.body| + 1 && p.body[..|b.body|] == b.body
                     && Strip(p.body[|b.body|]) == Strip(app)
                     && exists ind :: AllSpace(ind) && p.body[|b.body|] == ind + app
                else p.body == b.body)
    decreases |bs|
  {
    var b := bs[0];
    var ind := if IsService(b.header) then LastIndent(b.body, indent) else indent;
    LastIndentSpace(b.body, indent);
    InsertedLine(app, ind);
    if k > 0 {
      PatchExact(flag, app, bs[1..], ind, k - 1);
    } else if |bs| > 1 {
      PatchExact(flag, app, bs[1..], ind, 0);
    }
  }

  lemma PatchLength(flag: string, app: string, bs: seq<Block>, indent: string)
    ensures |Patch(flag, app, bs, indent)| == |bs|
  {}

  lemma {:induction false} PatchFlagged(flag: string, app: string, bs: seq<Block>, indent: string)
    requires AllFlagged(flag, bs)
    ensures Patch(flag, app, bs, indent) == bs
    decreases |bs|
  {
    hide IsService, HasFlag, LastIndent;
    if bs != [] {
      var b, rest := bs[0], bs[1..];
      var ind := if IsService(b.header) then LastIndent(b.body, indent) else indent;
      assert Patch(flag, app, bs, indent) == [b] + Patch(flag, app, rest, ind);
      hide Patch;
      PatchFlagged(flag, app, rest, ind);
      assert bs == [b] + rest;
    }
  }

  lemma AddedLine(flag: string, body: seq<string>, l: string)
    requires Plain(body) && !IsSection(l) && Hits(flag, l)
    ensures Plain(body + [l]) && HasFlag(flag, body + [l])
  {
    hide IsSection, Hits;
    assert (body + [l])[|body|] == l;
    assert forall k <- body + [l] :: k in body || k == l;
  }

  lemma InsertedHits(flag: string, suffix: string, l: string)
    requires Recognisable(flag, suffix) && Strip(l) == Strip(Appended(flag, suffix))
    ensures Hits(flag, l) && !IsSection(l)
  {
    hide Strip, Appended, Command, StartsSection;
  }

  lemma PatchResultAt(flag: string, suffix: string, bs: seq<Block>, indent: string, k: nat)
    requires k < |bs| && IsSection(bs[k].header) && Plain(bs[k].body)
    requires AllSpace(indent) && Recognisable(flag, suffix)
    ensures k < |Patch(flag, Appended(flag, suffix), bs, indent)|
    ensures var p := Patch(flag, Appended(flag, suffix), bs, indent)[k];
            IsSection(p.header) && Plain(p.body) && (IsService(p.header) ==> HasFlag(flag, p.body))
  {
    PatchExact(flag, Appended(flag, suffix), bs, indent, k);
    var b, p := bs[k], Patch(flag, Appended(flag, suffix), bs, indent)[k];
    hide Patch, Appended, IsService, IsSection, HasFlag, Plain, Recognisable;
    if IsService(b.header) && !HasFlag(flag, b.body) {
      var l := p.body[|b.body|];
      InsertedHits(flag, suffix, l);
      assert p.body == b.body + [l];
      AddedLine(flag, b.body, l);
    }
  }

  lemma PatchResult(flag: string, suffix: string, bs: seq<Block>, indent: string)
    requires WellFormed(bs) && AllSpace(indent) && Recognisable(flag, suffix)
    ensures WellFormed(Patch(flag, Appended(flag, suffix), bs, indent))
    ensures AllFlagged(flag, Patch(flag, Appended(flag, suffix), bs, indent))
  {
    PatchLength(flag, Appended(flag, suffix), bs, indent);
    hide Patch, Appended, IsSection, IsService, Plain, HasFlag, Recognisable;
    forall k | 0 <= k < |bs|
      ensures var p := Patch(flag, Appended(flag, suffix), bs, indent)[k];
              IsSection(p.header) && Plain(p.body) && (IsService(p.header) ==> HasFlag(flag, p.body))
    {
      assert bs[k] in bs;
      PatchResultAt(flag, suffix, bs, indent, k);
    }
  }

  /** What an observer of the file sees: same preamble, same headers, every
      service block flagged, and dropping the inserted last lines gives back
      the original sections. */
  lemma AddFlagEffect(flag: string, suffix: string, lines: seq<string>)
    requires Recognisable(flag, suffix)
    ensures var out := AddFlag(flag, suffix, lines);
            && Preamble(out) == Preamble(lines)
            && |Sections(out)| == |Sections(lines)|
            && AllFlagged(flag, Sections(out))
            && forall k :: 0 <= k < |Sections(out)| ==>
                 var b, p := Sections(lines)[k], Sections(out)[k];
                 && p.header == b.header
                 && (if IsService(b.header) && !HasFlag(flag, b.body)
                     then p.body != [] && p.body[..|p.body| - 1] == b.body
                          && exists ind :: AllSpace(ind) && p.body[|p.body| - 1] == ind + Appended(flag, suffix)
                     else p.body == b.body)
  {
    var app, bs := Appended(flag, suffix), Sections(lines);
    Parse(lines);
    PatchResult(flag, suffix, bs, DefaultIndent);
    Reparse(Preamble(lines), Patch(flag, app, bs, DefaultIndent));
    PatchLength(flag, app, bs, DefaultIndent);
    forall k | 0 <= k < |bs|
      ensures var b, p := bs[k], Patch(flag, app, bs, DefaultIndent)[k];
              && p.header == b.header
              && (if IsService(b.header) && !HasFlag(flag, b.body)
                  then p.body != [] && p.body[..|p.body| - 1] == b.body
                       && exists ind :: AllSpace(ind) && p.body[|p.body| - 1] == ind + app
                  else p.body == b.body)
    {
      PatchExact(flag, app, bs, DefaultIndent, k);
    }
  }

  ghost predicate AddFlagIdempotent(flag: string, suffix: string) {
    forall lines :: AddFlag(flag, suffix, AddFlag(flag, suffix, lines)) == AddFlag(flag, suffix, lines)
  }

  lemma AddFlagTwice(flag: string, suffix: string, lines: seq<string>)
    requires Recognisable(flag, suffix)
    ensures AddFlag(flag, suffix, AddFlag(flag, suffix, lines)) == AddFlag(flag, suffix, lines)
  {
    var app, bs := Appended(flag, suffix), Sections(lines);
    Parse(lines);
    PatchResult(flag, suffix, bs, DefaultIndent);
    var ps := Patch(flag, app, bs, DefaultIndent);
    Reparse(Preamble(lines), ps);
    PatchFlagged(flag, app, ps, DefaultIndent);
  }

  lemma {:induction false} PatchGrows(flag: string, app: string, bs: seq<Block>, indent: string)
    ensures |Flatten(Patch(flag, app, bs, indent))| >= |Flatten(bs)|
    ensures bs != [] && IsService(bs[0].header) && !HasFlag(flag, bs[0].body) ==>
              |Flatten(Patch(flag, app, bs, indent))| > |Flatten(bs)|
    decreases |bs|
  {
    if bs != [] {
      var b, rest := bs[0], bs[1..];
      assert [b] + rest == bs;
      PatchGrows(flag, app, rest, if IsService(b.header) then LastIndent(b.body, indent) else indent);
      PatchFlatten(flag, app, b, rest, indent);
    }
  }

  /** A file that starts with an unflagged service gets longer. */
  lemma AddFlagLonger(flag: string, suffix: string, lines: seq<string>)
    requires lines != [] && IsService(lines[0]) && !HasFlag(flag, Preamble(lines[1..]))
    ensures |AddFlag(flag, suffix, lines)| > |lines|
  {
    Parse(lines);
    ParseStep(lines);
    PatchGrows(flag, Appended(flag, suffix), Sections(lines), DefaultIndent);
  }

  lemma ServiceHeader()
    ensures Strip("service s") == "service s" && IsService("service s")
  {
    StripTrimmed("service s");
    assert "service s"[..8] == "service ";
  }

  lemma PatchNil(flag: string, suffix: string, indent: string)
    ensures Patch(flag, Appended(flag, suffix), [], indent) == [] && Flatten([]) == []
  {}

  lemma ParseOne(h: string, body: seq<string>)
    requires IsSection(h) && Plain(body)
    ensures Preamble([h] + body) == [] && Sections([h] + body) == [Block(h, body)] + []
  {
    var b := Block(h, body);
    Reparse([], [b]);
    assert [b] + [] == [b];
    hide Preamble, Sections;
    FlattenCons(b, []);
    assert [] + Flatten([b]) == [h] + body;
  }

  /** A file of one service. */
  lemma AddFlagOne(flag: string, suffix: string, body: seq<string>)
    requires Plain(body)
    ensures var ind := LastIndent(body, DefaultIndent);
            AddFlag(flag, suffix, ["service s"] + body)
            == ["service s"] + body + Close(flag, Appended(flag, suffix), true, body, ind)
  {
    ServiceHeader();
    ParseOne("service s", body);
    hide Preamble, Sections, Appended, LastIndent, Close, IsService, HasFlag, Flatten, Patch;
    var h := "service s";
    PatchFlatten(flag, Appended(flag, suffix), Block(h, body), [], DefaultIndent);
    PatchNil(flag, suffix, LastIndent(body, DefaultIndent));
  }

  /** A service that no pass can flag: its file grows with every pass. */
  lemma AddFlagGrows(flag: string, suffix: string)
    requires !Recognisable(flag, suffix)
    ensures |AddFlag(flag, suffix, AddFlag(flag, suffix, ["service s"]))| > |AddFlag(flag, suffix, ["service s"])|
  {
    var app := Appended(flag, suffix);
    var line := DefaultIndent + app;
    InsertedLine(app, DefaultIndent);
    assert !IsSection(line) ==> !Hits(flag, line);
    ServiceHeader();
    AddFlagEmpty(flag, suffix);
    hide AddFlag, Appended, Recognisable, Hits, IsSection, IsService;
    assert ["service s"] + [] == ["service s"];
    var out := AddFlag(flag, suffix, ["service s"]);
    assert out == ["service s", line];
    assert out[1..] == [line];
    AddFlagLonger(flag, suffix, out);
  }

  /** Adding a flag is idempotent on all files exactly for the flags that the
      pass recognises in its own output. */
  lemma AddFlagIdempotence(flag: string, suffix: string)
    ensures AddFlagIdempotent(flag, suffix) <==> Recognisable(flag, suffix)
  {
    if Recognisable(flag, suffix) {
      forall lines ensures AddFlag(flag, suffix, AddFlag(flag, suffix, lines)) == AddFlag(flag, suffix, lines) {
        AddFlagTwice(flag, suffix, lines);
      }
    } else {
      AddFlagGrows(flag, suffix);
    }
  }

  // ----- defusing `critical` -----

  function DefuseLine(note: Comment, line: string): string {
    if Strip(line) == "critical" then Indent(line) + note else line
  }

  function DefuseBody(note: Comment, body: seq<string>): seq<string> {
    seq(|body|, i requires 0 <= i < |body| => DefuseLine(note, body[i]))
  }

  function DefuseBlocks(note: Comment, bs: seq<Block>): seq<Block> {
    seq(|bs|, i requires 0 <= i < |bs| =>
      if IsService(bs[i].header) then Block(bs[i].header, DefuseBody(note, bs[i].body)) else bs[i])
  }

  function Defuse(note: Comment, lines: seq<string>): seq<string> {
    Preamble(lines) + Flatten(DefuseBlocks(note, Sections(lines)))
  }

  ghost function DefuseRun(note: Comment, inside: bool, lines: seq<string>): seq<string>
    decreases |lines|
  {
    if lines == [] then []
    else
      var now := if IsSection(lines[0]) then IsService(lines[0]) else inside;
      [if now then DefuseLine(note, lines[0]) else lines[0]] + DefuseRun(note, now, lines[1..])
  }

  /** The specification, started inside a section. */
  ghost function DefuseOut(note: Comment, inside: bool, body: seq<string>, bs: seq<Block>): seq<string> {
    (if inside then DefuseBody(note, body) else body) + Flatten(DefuseBlocks(note, bs))
  }

  ghost function DefuseRest(note: Comment, inside: bool, lines: seq<string>): seq<string> {
    DefuseOut(note, inside, Preamble(lines), Sections(lines))
  }

  lemma DefuseBlocksCons(note: Comment, b: Block, bs: seq<Block>)
    ensures DefuseBlocks(note, [b] + bs)
         == [if IsService(b.header) then Block(b.header, DefuseBody(note, b.body)) else b] + DefuseBlocks(note, bs)
  {}

  lemma DefuseFlatten(note: Comment, b: Block, bs: seq<Block>)
    ensures Flatten(DefuseBlocks(note, [b] + bs))
         == [b.header] + ((if IsService(b.header) then DefuseBody(note, b.body) else b.body)
                          + Flatten(DefuseBlocks(note, bs)))
  {
    DefuseBlocksCons(note, b, bs);
    FlattenCons(if IsService(b.header) then Block(b.header, DefuseBody(note, b.body)) else b, DefuseBlocks(note, bs));
  }

  lemma DefuseOutHeader(note: Comment, inside: bool, b: Block, bs: seq<Block>)
    ensures DefuseOut(note, inside, [], [b] + bs) == [b.header] + DefuseOut(note, IsService(b.header), b.body, bs)
  {
    DefuseFlatten(note, b, bs);
    assert DefuseBody(note, []) == [];
    hide DefuseBody, DefuseBlocks, Flatten, IsService;
  }

  lemma DefuseRestHeader(note: Comment, inside: bool, lines: seq<string>)
    requires lines != [] && IsSection(lines[0])
    ensures DefuseRest(note, inside, lines) == [lines[0]] + DefuseRest(note, IsService(lines[0]), lines[1..])
  {
    ParseStep(lines);
    hide Sections, Preamble, DefuseOut, IsService, IsSection;
    DefuseOutHeader(note, inside, Block(lines[0], Preamble(lines[1..])), Sections(lines[1..]));
  }

  lemma DefuseBodyCons(note: Comment, l: string, body: seq<string>)
    ensures DefuseBody(note, [l] + body) == [DefuseLine(note, l)] + DefuseBody(note, body)
  {}

  lemma DefuseOutPlain(note: Comment, inside: bool, l: string, pre: seq<string>, bs: seq<Block>)
    ensures DefuseOut(note, inside, [l] + pre, bs)
         == [if inside then DefuseLine(note, l) else l] + DefuseOut(note, inside, pre, bs)
  {
    DefuseBodyCons(note, l, pre);
    hide DefuseBody, DefuseBlocks, Flatten, DefuseLine;
  }

  lemma DefuseRestPlain(note: Comment, inside: bool, lines: seq<string>)
    requires lines != [] && !IsSection(lines[0])
    ensures DefuseRest(note, inside, lines)
         == [if inside then DefuseLine(note, lines[0]) else lines[0]] + DefuseRest(note, inside, lines[1..])
  {
    ParseStep(lines);
    hide Sections, Preamble, DefuseOut, DefuseLine, IsSection;
    DefuseOutPlain(note, inside, lines[0], Preamble(lines[1..]), Sections(lines[1..]));
  }

  lemma CriticalTrimmed()
    ensures Strip("critical") == "critical" && Command("critical") == "critical"
  {
    StripTrimmed("critical");
    assert IndexOf("critical", '#') == |"critical"| by { assert '#' !in "critical"; }
    assert "critical"[..|"critical"|] == "critical";
    hide Strip, IndexOf;
  }

  lemma CriticalIsPlain()
    ensures !StartsSection("critical") && Strip("critical") == "critical" && Command("critical") == "critical"
  {
    CriticalTrimmed();
    hide Strip, Command;
    assert "critical"[0] == 'c' && "service "[0] == 's' && "on "[0] == 'o' && "import "[0] == 'i';
  }

  lemma HeaderStays(note: Comment, line: string)
    requires IsSection(line)
    ensures DefuseLine(note, line) == line
  {
    CriticalIsPlain();
  }

  lemma {:induction false} DefuseRunBlocks(note: Comment, inside: bool, lines: seq<string>)
    ensures DefuseRun(note, inside, lines) == DefuseRest(note, inside, lines)
    decreases |lines|
  {
    if lines == [] {
      assert lines[..0] == [] && lines[0..] == [];
    } else if IsSection(lines[0]) {
      HeaderStays(note, lines[0]);
      DefuseRestHeader(note, inside, lines);
      DefuseRunBlocks(note, IsService(lines[0]), lines[1..]);
    } else {
      DefuseRestPlain(note, inside, lines);
      DefuseRunBlocks(note, inside, lines[1..]);
    }
  }

  lemma DefuseRunIsDefuse(note: Comment, lines: seq<string>)
    ensures DefuseRun(note, false, lines) == Defuse(note, lines)
  {
    DefuseRunBlocks(note, false, lines);
  }

  /** `line[:line.find('critical')]` is the indentation: nothing but white
      space stands before the word. */
  function FindCritical(line: string): (i: nat)
    requires Strip(line) == "critical"
    ensures i <= |line| && line[..i] == Indent(line)
  {
    LStripSplits(line);
    |Indent(line)|
  }

  method DefuseCriticalServices(note: Comment, lines: seq<string>) returns (modified: seq<string>)
    ensures modified == Defuse(note, lines)
  {
    modified := [];
    var inside := false;
    for i := 0 to |lines|
      invariant modified + DefuseRun(note, inside, lines[i..]) == DefuseRun(note, false, lines)
    {
      var line := lines[i];
      var stripped := Strip(line);
      assert lines[i..][0] == line && lines[i..][1..] == lines[i + 1..];
      if StartsSection(stripped) {
        inside := StartsWith(stripped, "service ");
      }
      if inside && stripped == "critical" {
        var indent := line[..FindCritical(line)];
        line := indent + note;
      }
      modified := modified + [line];
    }
    DefuseRunIsDefuse(note, lines);
  }

  lemma CommentCommand(note: Comment)
    ensures Strip(note) == note && Command(note) == "" && Indent(note) == "" && !StartsSection(note)
    ensures |note| > 0 && note != "critical"
  {
    StripTrimmed(note);
    assert note[..IndexOf(note, '#')] == "";
    hide Strip, Indent, IndexOf;
    assert "critical"[0] == 'c' && "service "[0] == 's' && "on "[0] == 'o' && "import "[0] == 'i';
  }

  /** A defused line is a comment with the indentation it had. */
  lemma DefusedLine(note: Comment, line: string)
    requires Strip(line) == "critical"
    ensures var d := DefuseLine(note, line);
            Strip(d) == note && Indented(d) == Indented(line) && Indent(d) == Indent(line)
  {
    LStripSplits(line);
    CommentCommand(note);
    var ind := Indent(line);
    LStripDrops(ind, note);
    assert Strip(ind + note) == note;
    assert Indent(ind + note) == ind;
    assert ind == "" ==> LStrip(line) == line;
  }

  lemma DefuseLineKind(note: Comment, line: string)
    ensures IsSection(DefuseLine(note, line)) <==> IsSection(line)
    ensures Strip(DefuseLine(note, line)) != "critical"
  {
    if Strip(line) == "critical" {
      DefusedLine(note, line);
      CommentCommand(note);
      CriticalIsPlain();
    }
  }

  lemma DefuseWellFormed(note: Comment, bs: seq<Block>)
    requires WellFormed(bs)
    ensures WellFormed(DefuseBlocks(note, bs))
  {
    forall k | 0 <= k < |bs| ensures Plain(DefuseBlocks(note, bs)[k].body) {
      var body := bs[k].body;
      forall i | 0 <= i < |body| ensures !IsSection(DefuseBody(note, body)[i]) { DefuseLineKind(note, body[i]); }
    }
  }

  ghost predicate NoCritical(bs: seq<Block>) {
    forall b <- bs, l <- b.body :: IsService(b.header) ==> Strip(l) != "critical"
  }

  lemma DefusedNoCritical(note: Comment, bs: seq<Block>)
    ensures NoCritical(DefuseBlocks(note, bs))
  {
    forall b, l | b in DefuseBlocks(note, bs) && l in b.body && IsService(b.header) ensures Strip(l) != "critical" {
      var k :| 0 <= k < |bs| && DefuseBlocks(note, bs)[k] == b;
      var i :| 0 <= i < |b.body| && b.body[i] == l;
      DefuseLineKind(note, bs[k].body[i]);
    }
  }

  /** `d` is `b` with at most the word `critical` taken out of a service. */
  ghost predicate OnlyCriticalChanged(b: Block, d: Block) {
    && d.header == b.header && |d.body| == |b.body|
    && (!IsService(b.header) ==> d == b)
    && forall i :: 0 <= i < |b.body| && Strip(b.body[i]) != "critical" ==> d.body[i] == b.body[i]
  }

  lemma DefuseBlocksExact(note: Comment, bs: seq<Block>)
    ensures |DefuseBlocks(note, bs)| == |bs|
    ensures forall k :: 0 <= k < |bs| ==> OnlyCriticalChanged(bs[k], DefuseBlocks(note, bs)[k])
    ensures |Flatten(DefuseBlocks(note, bs))| == |Flatten(bs)|
  {
    FlattenLength(bs, DefuseBlocks(note, bs));
  }

  /** No service is critical afterwards; sections, line counts and everything
      outside service blocks, or not the word itself, are kept. */
  lemma DefuseEffect(note: Comment, lines: seq<string>)
    ensures var out := Defuse(note, lines);
            && Preamble(out) == Preamble(lines)
            && |Sections(out)| == |Sections(lines)|
            && NoCritical(Sections(out))
            && (forall k :: 0 <= k < |Sections(out)| ==> OnlyCriticalChanged(Sections(lines)[k], Sections(out)[k]))
            && |out| == |lines|
  {
    Parse(lines);
    DefuseWellFormed(note, Sections(lines));
    Reparse(Preamble(lines), DefuseBlocks(note, Sections(lines)));
    DefusedNoCritical(note, Sections(lines));
    DefuseBlocksExact(note, Sections(lines));
    hide DefuseBlocks, Flatten, OnlyCriticalChanged, NoCritical, Plain, WellFormed, Preamble, Sections;
  }

  lemma {:induction false} FlattenLength(bs: seq<Block>, cs: seq<Block>)
    requires |bs| == |cs| && forall k :: 0 <= k < |bs| ==> |bs[k].body| == |cs[k].body|
    ensures |Flatten(bs)| == |Flatten(cs)|
    decreases |bs|
  {
    if bs != [] {
      FlattenLength(bs[1..], cs[1..]);
    }
  }

  function DefuseOneBlock(note: Comment, b: Block): Block {
    if IsService(b.header) then Block(b.header, DefuseBody(note, b.body)) else b
  }

  lemma DefuseFixed(note: Comment, b: Block)
    requires IsService(b.header) ==> forall l <- b.body :: Strip(l) != "critical"
    ensures DefuseOneBlock(note, b) == b
  {
    if IsService(b.header) {
      assert forall i :: 0 <= i < |b.body| ==> b.body[i] in b.body;
      assert DefuseBody(note, b.body) == b.body;
    }
  }

  lemma DefuseTwice(note: Comment, lines: seq<string>)
    ensures Defuse(note, Defuse(note, lines)) == Defuse(note, lines)
  {
    Parse(lines);
    DefuseWellFormed(note, Sections(lines));
    var ds := DefuseBlocks(note, Sections(lines));
    Reparse(Preamble(lines), ds);
    DefusedNoCritical(note, Sections(lines));
    hide Preamble, Sections, Flatten;
    forall k | 0 <= k < |ds| ensures DefuseOneBlock(note, ds[k]) == ds[k] {
      assert ds[k] in ds;
      DefuseFixed(note, ds[k]);
    }
    assert DefuseBlocks(note, ds) == ds;
  }

  // ----- the two passes commute -----

  /** Neither pass can change what the other looks for. */
  predicate Independent(flag: string, suffix: string) {
    flag != "" && flag != "critical" && Strip(Appended(flag, suffix)) != "critical"
  }

  lemma DefuseHits(note: Comment, flag: string, line: string)
    requires flag != "" && flag != "critical"
    ensures Hits(flag, DefuseLine(note, line)) <==> Hits(flag, line)
  {
    if Strip(line) == "critical" {
      CriticalIsPlain();
      CommentCommand(note);
      DefusedLine(note, line);
    }
  }

  ghost predicate PassesCommute(note: Comment, flag: string, suffix: string) {
    forall lines :: Defuse(note, AddFlag(flag, suffix, lines)) == AddFlag(flag, suffix, Defuse(note, lines))
  }

  /** Defusing keeps the state in which the other pass goes on. */
  lemma DefusedState(note: Comment, flag: string, line: string, indent: string)
    requires flag != "" && flag != "critical"
    ensures IsSection(DefuseLine(note, line)) <==> IsSection(line)
    ensures Hits(flag, DefuseLine(note, line)) <==> Hits(flag, line)
    ensures NextIndent(DefuseLine(note, line), indent) == NextIndent(line, indent)
  {
    DefuseLineKind(note, line);
    DefuseHits(note, flag, line);
    if Strip(line) == "critical" {
      DefusedLine(note, line);
      CommentCommand(note);
    }
  }

  lemma NextIndentSpace(line: string, indent: string)
    requires AllSpace(indent)
    ensures AllSpace(NextIndent(line, indent))
  {
    LStripSplits(line);
  }

  /** The inserted line is not defused, whether it opens a section or not, and a
      header after it is read as before. */
  lemma InsertedStays(note: Comment, app: string, indent: string, rest: seq<string>)
    requires AllSpace(indent) && Strip(app) != "critical"
    requires rest != [] ==> IsSection(rest[0])
    ensures DefuseRun(note, true, [indent + app] + rest) == [indent + app] + DefuseRun(note, true, rest)
  {
    InsertedLine(app, indent);
    var line := indent + app;
    assert DefuseLine(note, line) == line;
    assert ([line] + rest)[0] == line && ([line] + rest)[1..] == rest;
    hide DefuseLine, IsService, IsSection, Strip;
  }

  lemma DefuseCons(note: Comment, inside: bool, line: string, rest: seq<string>)
    ensures DefuseRun(note, inside, [line] + rest)
         == if IsSection(line) then [line] + DefuseRun(note, IsService(line), rest)
            else [if inside then DefuseLine(note, line) else line] + DefuseRun(note, inside, rest)
  {
    assert ([line] + rest)[1..] == rest;
    if IsSection(line) { HeaderStays(note, line); }
  }

  lemma AddCons(flag: string, app: string, inside: bool, has: bool, indent: string, line: string, rest: seq<string>)
    ensures AddRun(flag, app, inside, has, indent, [line] + rest)
         == if IsSection(line) then
              (if inside && !has then [indent + app] else [])
              + ([line] + AddRun(flag, app, IsService(line), false, indent, rest))
            else
              [line] + AddRun(flag, app, inside, has || (inside && Hits(flag, line)),
                              if inside then NextIndent(line, indent) else indent, rest)
  {
    assert ([line] + rest)[1..] == rest;
  }

  /** From any state of both loops, one after the other comes to the same. */
  lemma {:induction false} RunsSwap(note: Comment, flag: string, app: string, inside: bool, has: bool, indent: string,
                                    lines: seq<string>)
    requires flag != "" && flag != "critical" && Strip(app) != "critical" && AllSpace(indent)
    ensures DefuseRun(note, inside, AddRun(flag, app, inside, has, indent, lines))
         == AddRun(flag, app, inside, has, indent, DefuseRun(note, inside, lines))
    decreases |lines|
  {
    if lines == [] {
      InsertedStays(note, app, indent, []);
      assert [indent + app] + [] == [indent + app];
    } else {
      var line, rest := lines[0], lines[1..];
      assert lines == [line] + rest;
      if IsSection(line) {
        RunsSwap(note, flag, app, IsService(line), false, indent, rest);
        HeaderSwap(note, flag, app, inside, has, indent, line, rest);
      } else {
        NextIndentSpace(line, indent);
        RunsSwap(note, flag, app, inside, has || (inside && Hits(flag, line)),
                 if inside then NextIndent(line, indent) else indent, rest);
        PlainSwap(note, flag, app, inside, has, indent, line, rest);
      }
    }
  }

  lemma HeaderSwap(note: Comment, flag: string, app: string, inside: bool, has: bool, indent: string,
                   line: string, rest: seq<string>)
    requires Strip(app) != "critical" && AllSpace(indent) && IsSection(line)
    requires DefuseRun(note, IsService(line), AddRun(flag, app, IsService(line), false, indent, rest))
          == AddRun(flag, app, IsService(line), false, indent, DefuseRun(note, IsService(line), rest))
    ensures DefuseRun(note, inside, AddRun(flag, app, inside, has, indent, [line] + rest))
         == AddRun(flag, app, inside, has, indent, DefuseRun(note, inside, [line] + rest))
  {
    var tail := AddRun(flag, app, IsService(line), false, indent, rest);
    AddCons(flag, app, inside, has, indent, line, rest);
    DefuseCons(note, inside, line, rest);
    DefuseCons(note, inside, line, tail);
    AddCons(flag, app, inside, has, indent, line, DefuseRun(note, IsService(line), rest));
    InsertedStays(note, app, indent, [line] + tail);
    hide AddRun, DefuseRun, IsSection, IsService, Strip;
    assert [] + ([line] + tail) == [line] + tail;
  }

  lemma PlainSwap(note: Comment, flag: string, app: string, inside: bool, has: bool, indent: string,
                  line: string, rest: seq<string>)
    requires flag != "" && flag != "critical" && !IsSection(line)
    requires var has' := has || (inside && Hits(flag, line));
             var indent' := if inside then NextIndent(line, indent) else indent;
             DefuseRun(note, inside, AddRun(flag, app, inside, has', indent', rest))
             == AddRun(flag, app, inside, has', indent', DefuseRun(note, inside, rest))
    ensures DefuseRun(note, inside, AddRun(flag, app, inside, has, indent, [line] + rest))
         == AddRun(flag, app, inside, has, indent, DefuseRun(note, inside, [line] + rest))
  {
    var has' := has || (inside && Hits(flag, line));
    var indent' := if inside then NextIndent(line, indent) else indent;
    var kept := if inside then DefuseLine(note, line) else line;
    DefusedState(note, flag, line, indent);
    AddCons(flag, app, inside, has, indent, line, rest);
    DefuseCons(note, inside, line, rest);
    DefuseCons(note, inside, line, AddRun(flag, app, inside, has', indent', rest));
    AddCons(flag, app, inside, has, indent, kept, DefuseRun(note, inside, rest));
    hide AddRun, DefuseRun, IsSection, IsService, Strip, Hits, NextIndent, DefuseLine;
  }

  lemma PassesSwap(note: Comment, flag: string, suffix: string, lines: seq<string>)
    requires Independent(flag, suffix)
    ensures Defuse(note, AddFlag(flag, suffix, lines)) == AddFlag(flag, suffix, Defuse(note, lines))
  {
    RunsSwap(note, flag, Appended(flag, suffix), false, false, DefaultIndent, lines);
    AddRunIsAddFlag(flag, suffix, lines);
    DefuseRunIsDefuse(note, lines);
    DefuseRunIsDefuse(note, AddFlag(flag, suffix, lines));
    AddRunIsAddFlag(flag, suffix, Defuse(note, lines));
  }

  lemma CriticalBodies(note: Comment, flag: string)
    ensures Plain(["critical"]) && Plain([note])
    ensures HasFlag(flag, ["critical"]) <==> flag == "critical"
    ensures HasFlag(flag, [note]) <==> flag == ""
  {
    CriticalIsPlain();
    CommentCommand(note);
    hide Strip, Command;
    assert HasFlag(flag, ["critical"]) <==> Hits(flag, "critical");
    assert HasFlag(flag, [note]) <==> Hits(flag, note);
  }

  lemma DefuseService(note: Comment, body: seq<string>)
    requires Plain(body)
    ensures Defuse(note, ["service s"] + body) == ["service s"] + DefuseBody(note, body)
  {
    ServiceHeader();
    ParseOne("service s", body);
    hide DefuseLine, DefuseBody, Sections, Preamble, Plain, IsService;
    DefuseFlatten(note, Block("service s", body), []);
  }

  lemma DefuseOne(note: Comment)
    ensures Defuse(note, ["service s"] + ["critical"]) == ["service s"] + [note]
  {
    CriticalBodies(note, "");
    CriticalDefused(note);
    DefuseService(note, ["critical"]);
  }

  lemma CriticalDefused(note: Comment)
    ensures DefuseBody(note, ["critical"]) == [note]
  {
    CriticalIsPlain();
    hide Strip, Command;
    assert Indent("critical") == "" by { assert "critical"[0] == 'c'; }
    hide Indent;
    assert "" + note == note;
  }

  /** Where the flag is empty, or is `critical` itself, the order shows: one
      order adds a line to this block that the other does not. */
  lemma PassesClash(note: Comment, flag: string, suffix: string)
    requires flag == "" || flag == "critical"
    ensures |Defuse(note, AddFlag(flag, suffix, ["service s"] + ["critical"]))|
         != |AddFlag(flag, suffix, Defuse(note, ["service s"] + ["critical"]))|
  {
    DefuseOne(note);
    DefuseEffect(note, AddFlag(flag, suffix, ["service s"] + ["critical"]));
    CriticalBodies(note, flag);
    hide AddFlag, Defuse, HasFlag, Sections, Preamble;
    AddFlagOne(flag, suffix, ["critical"]);
    AddFlagOne(flag, suffix, [note]);
  }

  lemma AddFlagEmpty(flag: string, suffix: string)
    ensures AddFlag(flag, suffix, ["service s"] + []) == ["service s"] + [DefaultIndent + Appended(flag, suffix)]
  {
    AddFlagOne(flag, suffix, []);
    hide AddFlag, Appended;
    assert ["service s"] + [] == ["service s"];
  }

  lemma LineDefused(note: Comment, line: string)
    requires Strip(line) == "critical"
    ensures Plain([line]) && DefuseBody(note, [line]) == [DefuseLine(note, line)] && DefuseLine(note, line) != line
  {
    CriticalIsPlain();
    DefusedLine(note, line);
    CommentCommand(note);
    hide Strip, DefuseLine, StartsSection;
  }

  /** A line that is `critical` once stripped is inserted by one order as it is,
      and defused by the other. */
  lemma InsertedClash(note: Comment, flag: string, suffix: string)
    requires Strip(Appended(flag, suffix)) == "critical"
    ensures Defuse(note, AddFlag(flag, suffix, ["service s"] + []))
         != AddFlag(flag, suffix, Defuse(note, ["service s"] + []))
  {
    var line := DefaultIndent + Appended(flag, suffix);
    AddFlagEmpty(flag, suffix);
    InsertedLine(Appended(flag, suffix), DefaultIndent);
    LineDefused(note, line);
    assert DefuseBody(note, []) == [];
    hide AddFlag, Defuse, DefuseLine, DefuseBody, Strip, Appended;
    DefuseService(note, []);
    DefuseService(note, [line]);
    assert (["service s"] + [DefuseLine(note, line)])[1] != (["service s"] + [line])[1];
  }

  /** The passes commute on all files exactly when the flag is neither empty nor
      `critical` and the inserted line is not `critical` either. */
  lemma PassesCommuteExactly(note: Comment, flag: string, suffix: string)
    ensures PassesCommute(note, flag, suffix) <==> Independent(flag, suffix)
  {
    hide AddFlag, Defuse;
    if flag == "" || flag == "critical" {
      PassesClash(note, flag, suffix);
    } else if Strip(Appended(flag, suffix)) == "critical" {
      InsertedClash(note, flag, suffix);
    } else {
      forall lines ensures Defuse(note, AddFlag(flag, suffix, lines)) == AddFlag(flag, suffix, Defuse(note, lines)) {
        PassesSwap(note, flag, suffix, lines);
      }
    }
  }

  // ----- whole files -----

  ghost predicate OneLine(s: string) { forall c <- s :: !IsLineBreak(c) }

  function OneshotNote(): (s: Comment)
    ensures OneLine(s)
  {
    var a, b, c, d := "# Added ", "to prevent ", "restarts on ", "failure";
    assert OneLine(a) && OneLine(b) && OneLine(c) && OneLine(d);
    a + b + c + d
  }

  function DisabledNote(): (s: Comment)
    ensures OneLine(s)
  {
    var a, b, c, d := "# critical  ", "# Disabled to ", "prevent boot-", "loop/reboots";
    assert OneLine(a) && OneLine(b) && OneLine(c) && OneLine(d);
    a + b + c + d
  }

  function SelfCheck(): (s: string)
    ensures |s| > 0 && '\r' !in s
  {
    var a, b, c, d := "reboot_on_", "failure reboot,", "boringssl-", "self-check-failed";
    assert '\r' !in a && '\r' !in b && '\r' !in c && '\r' !in d;
    a + b + c + d
  }

  /** `comment_out_boringssl_check`: the text is read in text mode, and written
      only if the word is there uncommented. */
  function CommentOut(p: string, text: string): string
    requires p != ""
  {
    var content := Universal(text);
    if Contains(content, p) && !Contains(content, "#" + p) then ReplaceAll(content, p, "#" + p) else text
  }

  function LinesOf(text: string): seq<string> { Lines(IsLineBreak, Universal(text)) }

  /** `run_rc_merger` on a path and the text of the file there. */
  method RunRcMerger(path: string, text: string) returns (result: string)
    ensures var hwInit := BaseName(path) == "init.rc" && Contains(path, "/system/init/hw/");
            var systemExt := Contains(path, "/system_ext/");
            result == RcMerged("oneshot", OneshotNote(), DisabledNote(), text, hwInit, systemExt)
  {
    var hwInit := BaseName(path) == "init.rc" && Contains(path, "/system/init/hw/");
    var systemExt := Contains(path, "/system_ext/");
    result := text;
    if hwInit {
      var content := Universal(text);
      if Contains(content, SelfCheck()) && !Contains(content, "#" + SelfCheck()) {
        result := ReplaceAll(content, SelfCheck(), "#" + SelfCheck());
      }
    } else {
      if systemExt {
        var lines := AddFlagToServices(LinesOf(result), "oneshot", OneshotNote());
        result := Render(lines);
      }
      var lines := DefuseCriticalServices(DisabledNote(), LinesOf(result));
      result := Render(lines);
    }
  }

  function RcMerged(flag: string, suffix: Comment, note: Comment, text: string, hwInit: bool, systemExt: bool): string {
    if hwInit then CommentOut(SelfCheck(), text)
    else
      var first := if systemExt then Render(AddFlag(flag, suffix, LinesOf(text))) else text;
      Render(Defuse(note, LinesOf(first)))
  }

  lemma CommentOutTwice(p: string, text: string)
    requires p != "" && '\r' !in p
    ensures CommentOut(p, CommentOut(p, text)) == CommentOut(p, text)
  {
    var content, r := Universal(text), "#" + p;
    if Contains(content, p) && !Contains(content, r) {
      ReplacedContains(content, p, r);
      ReplacedChars(content, p, r, '\r');
      hide Universal, Contains, ReplaceAll;
      UniversalIdentity(ReplaceAll(content, p, r));
    }
  }

  /** A plain word with a comment behind it is recognised. */
  lemma WordRecognised(flag: string, suffix: Comment)
    requires flag != "" && Trimmed(flag) && '#' !in flag && !StartsSection(flag + "  " + suffix)
    ensures Appended(flag, suffix) == flag + "  " + suffix
    ensures Recognisable(flag, suffix)
    ensures Strip(Appended(flag, suffix)) != "critical"
  {
    var app := flag + "  " + suffix;
    assert app[|app| - 1] == suffix[|suffix| - 1];
    StripTrimmed(app);
    assert app[..|flag| + 2] == flag + "  " && app[|flag| + 2] == '#';
    IndexOfFirst(flag + "  ", suffix);
    StripSandwich("", flag, "  ");
    assert "" + flag + "  " == flag + "  ";
    assert '#' in app && '#' !in "critical";
  }

  lemma IndexOfFirst(before: string, suffix: Comment)
    requires '#' !in before
    ensures IndexOf(before + suffix, '#') == |before|
  {
    var s := before + suffix;
    var i := IndexOf(s, '#');
    assert s[|before|] == '#';
    assert '#' !in s[..i];
    assert forall j :: 0 <= j < |before| ==> s[j] == before[j];
  }

  // Rewritten files keep lines free of line breaks, so they split as written.

  lemma {:induction false} FlattenNoBreaks(pre: seq<string>, bs: seq<Block>)
    requires NoBreaks(IsLineBreak, pre)
    requires forall b <- bs :: NoBreaks(IsLineBreak, [b.header]) && NoBreaks(IsLineBreak, b.body)
    ensures NoBreaks(IsLineBreak, pre + Flatten(bs))
    decreases |bs|
  {
    if bs != [] {
      FlattenNoBreaks([], bs[1..]);
      assert [] + Flatten(bs[1..]) == Flatten(bs[1..]);
      forall l, c | l in pre + Flatten(bs) && c in l ensures !IsLineBreak(c) {
        assert bs[0].header in [bs[0].header];
      }
    }
  }

  lemma SectionsNoBreaks(lines: seq<string>, b: Block)
    requires NoBreaks(IsLineBreak, lines) && b in Sections(lines)
    ensures NoBreaks(IsLineBreak, [b.header]) && NoBreaks(IsLineBreak, b.body)
  {
    Parse(lines);
    FlattenHolds(Sections(lines), b);
    forall l | l == b.header || l in b.body ensures l in lines {
      assert l in Flatten(Sections(lines));
    }
  }

  lemma {:induction false} FlattenHolds(bs: seq<Block>, b: Block)
    requires b in bs
    ensures b.header in Flatten(bs) && forall l <- b.body :: l in Flatten(bs)
    decreases |bs|
  {
    if bs[0] != b {
      FlattenHolds(bs[1..], b);
    }
  }

  lemma {:induction false} LastIndentNoBreaks(body: seq<string>, indent: string)
    requires NoBreaks(IsLineBreak, body) && forall c <- indent :: !IsLineBreak(c)
    ensures forall c <- LastIndent(body, indent) :: !IsLineBreak(c)
    decreases |body|
  {
    if body != [] {
      StripSubset(body[0]);
      LastIndentNoBreaks(body[1..], NextIndent(body[0], indent));
    }
  }

  lemma {:induction false} PatchNoBreaks(flag: string, app: string, bs: seq<Block>, indent: string)
    requires forall b <- bs :: NoBreaks(IsLineBreak, [b.header]) && NoBreaks(IsLineBreak, b.body)
    requires (forall c <- indent :: !IsLineBreak(c)) && forall c <- app :: !IsLineBreak(c)
    ensures forall b <- Patch(flag, app, bs, indent) ::
              NoBreaks(IsLineBreak, [b.header]) && NoBreaks(IsLineBreak, b.body)
    decreases |bs|
  {
    if bs != [] {
      var ind := if IsService(bs[0].header) then LastIndent(bs[0].body, indent) else indent;
      LastIndentNoBreaks(bs[0].body, indent);
      PatchNoBreaks(flag, app, bs[1..], ind);
    }
  }

  lemma AddFlagNoBreaks(flag: string, suffix: string, lines: seq<string>)
    requires NoBreaks(IsLineBreak, lines) && forall c <- Appended(flag, suffix) :: !IsLineBreak(c)
    ensures NoBreaks(IsLineBreak, AddFlag(flag, suffix, lines))
  {
    forall b | b in Sections(lines) ensures NoBreaks(IsLineBreak, [b.header]) && NoBreaks(IsLineBreak, b.body) {
      SectionsNoBreaks(lines, b);
    }
    var app := Appended(flag, suffix);
    PatchNoBreaks(flag, app, Sections(lines), DefaultIndent);
    FlattenNoBreaks(Preamble(lines), Patch(flag, app, Sections(lines), DefaultIndent));
  }

  lemma DefuseBodyNoBreaks(note: Comment, body: seq<string>)
    requires NoBreaks(IsLineBreak, body) && forall c <- note :: !IsLineBreak(c)
    ensures NoBreaks(IsLineBreak, DefuseBody(note, body))
  {
    hide IsLineBreak, Strip;
    forall i | 0 <= i < |body| ensures forall c <- DefuseLine(note, body[i]) :: !IsLineBreak(c) {
      StripSubset(body[i]);
      assert body[i] in body;
    }
  }

  lemma DefuseNoBreaks(note: Comment, lines: seq<string>)
    requires NoBreaks(IsLineBreak, lines) && forall c <- note :: !IsLineBreak(c)
    ensures NoBreaks(IsLineBreak, Defuse(note, lines))
  {
    var bs := Sections(lines);
    forall b | b in DefuseBlocks(note, bs) ensures NoBreaks(IsLineBreak, [b.header]) && NoBreaks(IsLineBreak, b.body) {
      var k :| 0 <= k < |bs| && DefuseBlocks(note, bs)[k] == b;
      SectionsNoBreaks(lines, bs[k]);
      DefuseBodyNoBreaks(note, bs[k].body);
    }
    hide NoBreaks, DefuseBlocks;
    FlattenNoBreaks(Preamble(lines), DefuseBlocks(note, bs));
  }

  /** Reading a file that was written from lines. */
  lemma LinesOfRendered(lines: seq<string>)
    requires NoBreaks(IsLineBreak, lines)
    ensures LinesOf(Render(lines)) == if lines == [] then [""] else lines
  {
    RenderChars(lines);
    assert '\r' !in Render(lines);
    UniversalIdentity(Render(lines));
    LinesOfRender(IsLineBreak, lines);
  }

  /** The composed pass over the lines is idempotent: its parts are, and they
      commute. */
  lemma ComposedTwice(flag: string, suffix: string, note: Comment, lines: seq<string>)
    requires Recognisable(flag, suffix) && Independent(flag, suffix)
    ensures var once := Defuse(note, AddFlag(flag, suffix, lines));
            Defuse(note, AddFlag(flag, suffix, once)) == once
  {
    var a := AddFlag(flag, suffix, lines);
    PassesSwap(note, flag, suffix, a);
    AddFlagTwice(flag, suffix, lines);
    DefuseTwice(note, a);
  }

  lemma BlankFile(flag: string, suffix: string, note: Comment)
    ensures AddFlag(flag, suffix, [""]) == [""] && Defuse(note, [""]) == [""]
    ensures AddFlag(flag, suffix, []) == [] && Defuse(note, []) == []
    ensures Render([""]) == Render([])
  {
    assert !IsSection("");
    assert BodyLen([""]) == 1;
    assert [""][1..] == [];
  }

  /** The file between the two passes does not show in the result. */
  lemma MergedText(flag: string, suffix: Comment, note: Comment, text: string, systemExt: bool)
    requires forall c <- Appended(flag, suffix) :: !IsLineBreak(c)
    ensures var ls := LinesOf(text);
            RcMerged(flag, suffix, note, text, false, systemExt)
            == Render(Defuse(note, if systemExt then AddFlag(flag, suffix, ls) else ls))
  {
    if systemExt {
      var ls := LinesOf(text);
      BlankFile(flag, suffix, note);
      AddFlagNoBreaks(flag, suffix, ls);
      LinesOfRendered(AddFlag(flag, suffix, ls));
    }
  }

  /** Running the merger on a file it has already rewritten changes nothing. */
  lemma MergerTwice(flag: string, suffix: Comment, note: Comment, text: string, hwInit: bool, systemExt: bool)
    requires Recognisable(flag, suffix) && Independent(flag, suffix)
    requires forall c <- Appended(flag, suffix) :: !IsLineBreak(c)
    requires forall c <- note :: !IsLineBreak(c)
    ensures var once := RcMerged(flag, suffix, note, text, hwInit, systemExt);
            RcMerged(flag, suffix, note, once, hwInit, systemExt) == once
  {
    if hwInit {
      CommentOutTwice(SelfCheck(), text);
    } else {
      var ls := LinesOf(text);
      var a := if systemExt then AddFlag(flag, suffix, ls) else ls;
      BlankFile(flag, suffix, note);
      MergedText(flag, suffix, note, text, systemExt);
      AddFlagNoBreaks(flag, suffix, ls);
      DefuseNoBreaks(note, a);
      LinesOfRendered(Defuse(note, a));
      MergedText(flag, suffix, note, RcMerged(flag, suffix, note, text, false, systemExt), systemExt);
      ComposedTwice(flag, suffix, note, ls);
      DefuseTwice(note, ls);
    }
  }

  /** The same for the words the repository uses. */
  lemma RunRcMergerTwice(text: string, hwInit: bool, systemExt: bool)
    ensures var once := RcMerged("oneshot", OneshotNote(), DisabledNote(), text, hwInit, systemExt);
            RcMerged("oneshot", OneshotNote(), DisabledNote(), once, hwInit, systemExt) == once
  {
    var flag, suffix := "oneshot", OneshotNote();
    OneshotIsWord();
    WordRecognised(flag, suffix);
    MergerTwice(flag, suffix, DisabledNote(), text, hwInit, systemExt);
  }

  lemma OneshotIsWord()
    ensures Trimmed("oneshot") && '#' !in "oneshot" && OneLine("oneshot  ")
    ensures forall rest :: !StartsSection("oneshot" + "  " + rest)
  {
    forall rest ensures !StartsSection("oneshot" + "  " + rest) {
      var s := "oneshot" + "  " + rest;
      assert s[0] == 'o' && s[2] == 'e';
      assert "service "[0] == 's' && "on "[2] == ' ' && "import "[0] == 'i';
    }
  }
}
