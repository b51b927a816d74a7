/** aosp_build_property_merger.py: merging two property files. Parsing and
    merging are the loops of the source, proved against folds over the lines;
    the promises of the merge are proved on the text that is written. */
module PropertyMerger {
  import opened Options
  import opened Text

  datatype Parsed = TextLine(text: string) | Pair(key: string, val: string)

  /** An entry of `file_structure`. */
  datatype Entry = TextEntry(text: string) | PropEntry(key: string)

  type Props = map<string, string>

  function ParseLine(raw: string): Parsed {
    var s := Strip(raw);
    if s == "" then TextLine("")
    else if s[0] == '#' || '=' !in s then TextLine(raw)
    else
      var i := IndexOf(s, '=');
      Pair(Strip(s[..i]), Strip(s[i + 1..]))
  }

  function EntryOf(raw: string): Entry {
    match ParseLine(raw)
    case TextLine(t) => TextEntry(t)
    case Pair(k, _) => PropEntry(k)
  }

  function Structure(lines: seq<string>): seq<Entry> {
    seq(|lines|, i requires 0 <= i < |lines| => EntryOf(lines[i]))
  }

  /** The key/value pairs of a file; a later line wins. */
  function PropsOf(lines: seq<string>): Props {
    if lines == [] then map[]
    else
      var before := PropsOf(lines[..|lines| - 1]);
      match ParseLine(lines[|lines| - 1])
      case TextLine(_) => before
      case Pair(k, v) => before[k := v]
  }

  /** The lines of a file, nothing for a missing one. */
  function FileLines(file: Option<string>): seq<string> {
    if file.None? then [] else Lines(IsNewline, Universal(file.value))
  }

  method ParseProperties(file: Option<string>) returns (props: Props, structure: seq<Entry>)
    ensures props == PropsOf(FileLines(file)) && structure == Structure(FileLines(file))
  {
    props, structure := map[], [];
    if file.None? {
      return;
    }
    var lines := Lines(IsNewline, Universal(file.value));
    for i := 0 to |lines|
      invariant props == PropsOf(lines[..i]) && structure == Structure(lines[..i])
    {
      PropsStep(lines, i);
      var raw := lines[i];
      var stripped := Strip(raw);
      if stripped == "" {
        structure := structure + [TextEntry("")];
        continue;
      }
      if stripped[0] == '#' || '=' !in stripped {
        structure := structure + [TextEntry(raw)];
        continue;
      }
      var eq := IndexOf(stripped, '=');
      var key, val := Strip(stripped[..eq]), Strip(stripped[eq + 1..]);
      props := props[key := val];
      structure := structure + [PropEntry(key)];
    }
    assert lines[..|lines|] == lines;
  }

  lemma PropsOfLast(before: seq<string>, last: string)
    ensures PropsOf(before + [last])
         == match ParseLine(last)
            case TextLine(_) => PropsOf(before)
            case Pair(k, v) => PropsOf(before)[k := v]
  {
    hide ParseLine;
    var next := before + [last];
    assert next[..|next| - 1] == before && next[|next| - 1] == last;
  }

  lemma PropsStep(lines: seq<string>, i: nat)
    requires i < |lines|
    ensures PropsOf(lines[..i + 1])
         == match ParseLine(lines[i])
            case TextLine(_) => PropsOf(lines[..i])
            case Pair(k, v) => PropsOf(lines[..i])[k := v]
    ensures Structure(lines[..i + 1]) == Structure(lines[..i]) + [EntryOf(lines[i])]
  {
    hide ParseLine;
    assert lines[..i + 1] == lines[..i] + [lines[i]];
    PropsOfLast(lines[..i], lines[i]);
    hide PropsOf;
    assert Structure(lines[..i + 1]) == Structure(lines[..i]) + [EntryOf(lines[i])];
  }

  /** How a line is read, told from its first equals sign: the key and the value are
      what is before and behind it, both without outer white space. */
  lemma ParsesAsPair(raw: string, i: nat, a: nat, b: nat, c: nat, d: nat)
    requires i < |raw| && raw[i] == '=' && '=' !in raw[..i]
    requires Strip(raw) != "" ==> Strip(raw)[0] != '#'
    requires Core(raw[..i], a, b) && Core(raw[i + 1..], c, d)
    ensures ParseLine(raw) == Pair(raw[..i][a..b], raw[i + 1..][c..d])
  {
    hide IsSpace;
    CoreStrip(raw[..i], a, b);
    CoreStrip(raw[i + 1..], c, d);
    var p, q := StripCore(raw);
    NotWhite(raw, p, q, i);
    HalvesStripped(raw, p, q, i);
    FirstEquals(raw, p, q, i);
    hide Core;
    ParsedAt(raw, p, q, i);
  }

  lemma NotWhite(raw: string, p: nat, q: nat, i: nat)
    requires Core(raw, p, q) && i < |raw| && raw[i] == '='
    ensures p <= i < q
  {
    assert !IsSpace('=');
    hide IsSpace;
  }

  lemma ParsedAt(raw: string, p: nat, q: nat, i: nat)
    requires p <= i < q <= |raw| && Strip(raw) == raw[p..q] && raw[p] != '#'
    requires '=' in raw[p..q] && IndexOf(raw[p..q], '=') == i - p
    ensures ParseLine(raw) == Pair(Strip(raw[p..i]), Strip(raw[i + 1..q]))
  {
    hide Strip, IndexOf;
    var s := raw[p..q];
    assert s[0] == raw[p];
    assert s[..i - p] == raw[p..i] && s[i - p + 1..] == raw[i + 1..q];
  }

  lemma HalvesStripped(raw: string, p: nat, q: nat, i: nat)
    requires Core(raw, p, q) && p <= i < q
    ensures Strip(raw[p..i]) == Strip(raw[..i]) && Strip(raw[i + 1..q]) == Strip(raw[i + 1..])
  {
    hide Strip, IsSpace;
    assert AllSpace(raw[..p]) && AllSpace(raw[q..]);
    StripOuter(raw[..p], raw[p..i], "");
    StripOuter("", raw[i + 1..q], raw[q..]);
    assert raw[..p] + raw[p..i] + "" == raw[..i] && "" + raw[i + 1..q] + raw[q..] == raw[i + 1..];
  }

  lemma FirstEquals(raw: string, p: nat, q: nat, i: nat)
    requires p <= i < q <= |raw| && raw[i] == '=' && '=' !in raw[..i]
    ensures '=' in raw[p..q] && IndexOf(raw[p..q], '=') == i - p
  {
    var s := raw[p..q];
    var n := IndexOf(s, '=');
    assert s[i - p] == '=';
    assert forall k :: 0 <= k < i - p ==> s[k] == raw[..i][p + k];
    assert forall k :: 0 <= k < n ==> s[k] in s[..n];
    assert s[n] == '=';
  }

  /** A line without an equals sign, or with a hash as its first character behind white
      space, stays as it is; a blank one is emptied. */
  lemma ParsesAsText(raw: string)
    requires '=' !in raw || Strip(raw) == "" || Strip(raw)[0] == '#'
    ensures ParseLine(raw) == TextLine(if Strip(raw) == "" then "" else raw)
  {
    StripSubset(raw);
  }

  // ----- merging -----

  function Shown(final: Props, k: string): string
    requires k in final
  {
    k + "=" + final[k]
  }

  /** Output lines, keys written so far, and whether the vendor header is out. */
  datatype Out = Out(lines: seq<string>, written: set<string>, header: bool)

  function WriteKey(final: Props, o: Out, k: string): Out
    requires k in final
  {
    o.(lines := o.lines + [Shown(final, k)], written := o.written + {k})
  }

  function AospStep(final: Props, o: Out, e: Entry): Out {
    match e
    case TextEntry(t) => o.(lines := o.lines + [t])
    case PropEntry(k) => if k in final then WriteKey(final, o, k) else o
  }

  function WithHeader(h: Comment, o: Out): Out {
    if o.header then o else o.(lines := o.lines + ["\n" + h], header := true)
  }

  function VendorStep(h: Comment, final: Props, o: Out, e: Entry): Out {
    match e
    case TextEntry(t) =>
      if t != "" && t !in o.lines then var p := WithHeader(h, o); p.(lines := p.lines + [t]) else o
    case PropEntry(k) =>
      if k !in o.written && k in final then WriteKey(final, WithHeader(h, o), k) else o
  }

  function AospPart(final: Props, es: seq<Entry>): Out {
    if es == [] then Out([], {}, false)
    else AospStep(final, AospPart(final, es[..|es| - 1]), es[|es| - 1])
  }

  function VendorPart(h: Comment, final: Props, o: Out, es: seq<Entry>): Out {
    if es == [] then o
    else VendorStep(h, final, VendorPart(h, final, o, es[..|es| - 1]), es[|es| - 1])
  }

  lemma AospPartStep(final: Props, es: seq<Entry>, i: nat)
    requires i < |es|
    ensures AospPart(final, es[..i + 1]) == AospStep(final, AospPart(final, es[..i]), es[i])
  {
    assert es[..i + 1][..i] == es[..i];
  }

  lemma VendorPartStep(h: Comment, final: Props, o: Out, es: seq<Entry>, i: nat)
    requires i < |es|
    ensures VendorPart(h, final, o, es[..i + 1]) == VendorStep(h, final, VendorPart(h, final, o, es[..i]), es[i])
  {
    assert es[..i + 1][..i] == es[..i];
  }

  /** The final pairs once all AOSP keys but `left` are in. */
  function Overridden<K(==), V>(aosp: map<K, V>, vendor: map<K, V>, left: set<K>): map<K, V> {
    vendor + (aosp - left)
  }

  /** The keys of both files outside `left`, with both values. */
  function Conflicts<K(==), V>(aosp: map<K, V>, vendor: map<K, V>, left: set<K>): map<K, (V, V)> {
    map k | k in aosp && k in vendor && k !in left :: (aosp[k], vendor[k])
  }

  lemma OverrideEnds<K, V>(aosp: map<K, V>, vendor: map<K, V>)
    ensures Overridden(aosp, vendor, aosp.Keys) == vendor
    ensures Overridden(aosp, vendor, {}) == vendor + aosp
  {
    assert aosp - {} == aosp;
  }

  lemma ConflictsEnds<K, V>(aosp: map<K, V>, vendor: map<K, V>)
    ensures Conflicts(aosp, vendor, aosp.Keys) == map[]
    ensures Conflicts(aosp, vendor, {}).Keys == aosp.Keys * vendor.Keys
    ensures forall k <- Conflicts(aosp, vendor, {}) :: Conflicts(aosp, vendor, {})[k] == (aosp[k], vendor[k])
  {}

  lemma OverrideNext<K, V>(aosp: map<K, V>, vendor: map<K, V>, left: set<K>, key: K)
    requires key in left && left <= aosp.Keys
    ensures var before := Overridden(aosp, vendor, left);
      && Overridden(aosp, vendor, left - {key}) == before[key := aosp[key]]
      && (key in before <==> key in vendor)
      && (key in vendor ==> before[key] == vendor[key])
  {}

  lemma ConflictsNext<K, V>(aosp: map<K, V>, vendor: map<K, V>, left: set<K>, key: K)
    requires key in left && left <= aosp.Keys
    ensures var before := Conflicts(aosp, vendor, left);
      Conflicts(aosp, vendor, left - {key})
      == if key in vendor then before[key := (aosp[key], vendor[key])] else before
  {}

  /** Step 1: the final pairs, AOSP over vendor, and the keys in conflict. */
  method FinalValues<K(==), V>(aosp: map<K, V>, vendor: map<K, V>)
    returns (final: map<K, V>, conflicts: map<K, (V, V)>)
    ensures final == vendor + aosp
    ensures conflicts.Keys == aosp.Keys * vendor.Keys
    ensures forall k <- conflicts :: conflicts[k] == (aosp[k], vendor[k])
  {
    OverrideEnds(aosp, vendor);
    ConflictsEnds(aosp, vendor);
    hide Overridden, Conflicts;
    final, conflicts := vendor, map[];
    var keys := aosp.Keys;
    while keys != {}
      invariant keys <= aosp.Keys
      invariant final == Overridden(aosp, vendor, keys)
      invariant conflicts == Conflicts(aosp, vendor, keys)
      decreases |keys|
    {
      var key :| key in keys;
      OverrideNext(aosp, vendor, keys, key);
      ConflictsNext(aosp, vendor, keys, key);
      if key in final {
        conflicts := conflicts[key := (aosp[key], final[key])];
      }
      final := final[key := aosp[key]];
      keys := keys - {key};
    }
  }

  /** Step 2: the AOSP layout with final values. */
  method LayOut(final: Props, aosp: seq<Entry>) returns (lines: seq<string>, written: set<string>)
    ensures Out(lines, written, false) == AospPart(final, aosp)
  {
    lines, written := [], {};
    for i := 0 to |aosp|
      invariant Out(lines, written, false) == AospPart(final, aosp[..i])
    {
      AospPartStep(final, aosp, i);
      hide AospPart;
      match aosp[i]
      case TextEntry(t) => lines := lines + [t];
      case PropEntry(key) =>
        if key in final {
          lines := lines + [key + "=" + final[key]];
          written := written + {key};
        }
    }
    assert aosp[..|aosp|] == aosp;
  }

  method MergeProperties(h: Comment, aospProps: Props, vendorProps: Props, aosp: seq<Entry>, vendor: seq<Entry>)
    returns (lines: seq<string>, conflicts: map<string, (string, string)>)
    ensures var final := vendorProps + aospProps;
            lines == VendorPart(h, final, AospPart(final, aosp), vendor).lines
    ensures conflicts.Keys == aospProps.Keys * vendorProps.Keys
    ensures forall k <- conflicts :: conflicts[k] == (aospProps[k], vendorProps[k])
  {
    var final, written;
    final, conflicts := FinalValues(aospProps, vendorProps);
    lines, written := LayOut(final, aosp);
    ghost var first := AospPart(final, aosp);
    hide AospPart;

    // Step 3: what only the vendor file has, in its order.
    var header := false;
    for i := 0 to |vendor|
      invariant Out(lines, written, header) == VendorPart(h, final, first, vendor[..i])
    {
      VendorPartStep(h, final, first, vendor, i);
      hide VendorPart;
      match vendor[i]
      case TextEntry(t) =>
        if t != "" && t !in lines {
          if !header {
            lines := lines + ["\n" + h];
            header := true;
          }
          lines := lines + [t];
        }
      case PropEntry(key) =>
        if key !in written && key in final {
          if !header {
            lines := lines + ["\n" + h];
            header := true;
          }
          lines := lines + [key + "=" + final[key]];
          written := written + {key};
        }
    }
    assert vendor[..|vendor|] == vendor;
  }

  function FinalProps(aosp: seq<string>, vendor: seq<string>): Props { PropsOf(vendor) + PropsOf(aosp) }

  function MergeOut(h: Comment, aosp: seq<string>, vendor: seq<string>): Out {
    var final := FinalProps(aosp, vendor);
    VendorPart(h, final, AospPart(final, Structure(aosp)), Structure(vendor))
  }

  /** The text of the merged file. */
  function Merged(h: Comment, aosp: Option<string>, vendor: Option<string>): string {
    Render(MergeOut(h, FileLines(aosp), FileLines(vendor)).lines)
  }

  method StartPropertyMerge(h: Comment, aosp: Option<string>, vendor: Option<string>)
    returns (out: string, conflicts: map<string, (string, string)>)
    ensures out == Merged(h, aosp, vendor)
  {
    var aospProps, aospStructure := ParseProperties(aosp);
    var vendorProps, vendorStructure := ParseProperties(vendor);
    var lines;
    lines, conflicts := MergeProperties(h, aospProps, vendorProps, aospStructure, vendorStructure);
    out := Render(lines);
  }

  // ----- lines that survive a round trip -----

  ghost predicate OneLine(s: string) { '\n' !in s && '\r' !in s }

  ghost predicate KeyOk(k: string) { Trimmed(k) && '=' !in k && OneLine(k) && (k != "" ==> k[0] != '#') }

  ghost predicate ValOk(v: string) { Trimmed(v) && OneLine(v) }

  ghost predicate PropsOk(m: Props) { forall k <- m :: KeyOk(k) && ValOk(m[k]) }

  lemma StripTrimmedResult(s: string)
    ensures Trimmed(Strip(s))
    ensures OneLine(s) ==> OneLine(Strip(s))
    ensures '=' !in s ==> '=' !in Strip(s)
    ensures s != "" && !IsSpace(s[0]) && Strip(s) != "" ==> Strip(s)[0] == s[0]
  {
    var trail := StripShape(s);
    StripSubset(s);
    if s != "" && !IsSpace(s[0]) { assert Indent(s) == ""; }
  }

  lemma ParsedPairOk(raw: string)
    requires OneLine(raw) && ParseLine(raw).Pair?
    ensures KeyOk(ParseLine(raw).key) && ValOk(ParseLine(raw).val)
  {
    var s := Strip(raw);
    StripTrimmedResult(raw);
    var i := IndexOf(s, '=');
    assert s[i] == '=';
    StripTrimmedResult(s[..i]);
    StripTrimmedResult(s[i + 1..]);
  }

  lemma IndexOfSplit(k: string, c: char, v: string)
    requires c !in k
    ensures IndexOf(k + [c] + v, c) == |k|
  {
    var s := k + [c] + v;
    assert s[|k|] == c;
    assert forall j :: 0 <= j < |k| ==> s[j] == k[j];
  }

  /** A rendered pair parses back, whatever the two halves are. */
  lemma ShownParses(k: string, v: string)
    requires KeyOk(k) && ValOk(v)
    ensures ParseLine(k + "=" + v) == Pair(k, v) && OneLine(k + "=" + v)
  {
    var s := k + "=" + v;
    assert s[|k|] == '=';
    StripTrimmed(s);
    IndexOfSplit(k, '=', v);
    assert s[..|k|] == k && s[|k| + 1..] == v;
    StripTrimmed(k);
    StripTrimmed(v);
  }

  lemma ParsedTextOk(raw: string)
    requires OneLine(raw) && ParseLine(raw).TextLine?
    ensures var t := ParseLine(raw).text; ParseLine(t) == TextLine(t) && OneLine(t)
  {
    StripTrimmed("");
  }

  lemma {:induction false} PropsOfOk(lines: seq<string>)
    requires forall l <- lines :: OneLine(l)
    ensures PropsOk(PropsOf(lines))
    ensures forall k <- PropsOf(lines) :: PropEntry(k) in Structure(lines)
    decreases |lines|
  {
    if lines != [] {
      var n := |lines| - 1;
      PropsOfOk(lines[..n]);
      PropsStep(lines, n);
      assert lines[..n + 1] == lines;
      if ParseLine(lines[n]).Pair? { ParsedPairOk(lines[n]); }
    }
  }

  /** An entry that came from a line. */
  ghost predicate EntryOk(e: Entry) {
    match e
    case TextEntry(t) => ParseLine(t) == TextLine(t) && OneLine(t)
    case PropEntry(k) => KeyOk(k)
  }

  lemma StructureOk(lines: seq<string>)
    requires forall l <- lines :: OneLine(l)
    ensures forall e <- Structure(lines) :: EntryOk(e)
  {
    forall i | 0 <= i < |lines| ensures EntryOk(EntryOf(lines[i])) {
      assert OneLine(lines[i]);
      if ParseLine(lines[i]).Pair? { ParsedPairOk(lines[i]); } else { ParsedTextOk(lines[i]); }
    }
  }

  /** A line whose parse, under the final values, renders to the line itself. */
  ghost predicate Stable(final: Props, l: string) {
    && OneLine(l)
    && match ParseLine(l)
       case TextLine(t) => t == l
       case Pair(k, v) => k in final && final[k] == v && l == Shown(final, k)
  }

  lemma ShownStable(final: Props, k: string)
    requires PropsOk(final) && k in final
    ensures Stable(final, Shown(final, k))
  {
    ShownParses(k, final[k]);
  }

  // ----- the output of the merge -----

  /** Written keys have their line; all lines are stable but the header. */
  ghost predicate OutOk(h: Comment, final: Props, o: Out) {
    && (forall l <- o.lines :: l == "\n" + h || Stable(final, l))
    && (forall k <- o.written :: k in final && Shown(final, k) in o.lines)
  }

  /** What the merge owes to an entry it has passed. */
  ghost predicate Served(final: Props, o: Out, e: Entry) {
    match e
    case TextEntry(t) => t == "" || t in o.lines
    case PropEntry(k) => k in final ==> k in o.written
  }

  lemma AppendOk(h: Comment, final: Props, o: Out, l: string)
    requires OutOk(h, final, o) && (l == "\n" + h || Stable(final, l))
    ensures OutOk(h, final, o.(lines := o.lines + [l]))
    ensures o.lines <= o.lines + [l]
  {}

  lemma WriteKeyOk(h: Comment, final: Props, o: Out, k: string)
    requires PropsOk(final) && k in final && OutOk(h, final, o)
    ensures OutOk(h, final, WriteKey(final, o, k))
  {
    ShownStable(final, k);
    AppendOk(h, final, o, Shown(final, k));
    hide Shown, Stable, PropsOk;
  }

  lemma VendorStepOk(h: Comment, final: Props, o: Out, e: Entry)
    requires PropsOk(final) && OutOk(h, final, o) && EntryOk(e)
    ensures var p := VendorStep(h, final, o, e);
            && OutOk(h, final, p) && Served(final, p, e)
            && o.lines <= p.lines && o.written <= p.written
  {
    var q := WithHeader(h, o);
    AppendOk(h, final, o, "\n" + h);
    assert OutOk(h, final, q) && o.lines <= q.lines && o.written <= q.written;
    match e
    case TextEntry(t) =>
      AppendOk(h, final, q, t);
      hide OutOk, WithHeader, Stable;
    case PropEntry(k) =>
      if k in final { WriteKeyOk(h, final, q, k); }
      hide OutOk, WithHeader, Stable;
  }

  lemma {:induction false} VendorPartOk(h: Comment, final: Props, o: Out, es: seq<Entry>)
    requires PropsOk(final) && OutOk(h, final, o) && forall e <- es :: EntryOk(e)
    ensures var p := VendorPart(h, final, o, es);
            && OutOk(h, final, p)
            && (forall e <- es :: Served(final, p, e))
            && o.lines <= p.lines && o.written <= p.written
    decreases |es|
  {
    if es != [] {
      var n := |es| - 1;
      var mid := VendorPart(h, final, o, es[..n]);
      var p := VendorPart(h, final, o, es);
      VendorPartOk(h, final, o, es[..n]);
      VendorStepOk(h, final, mid, es[n]);
      forall e | e in es ensures Served(final, p, e) {
        if e in es[..n] { assert Served(final, mid, e); } else { assert e == es[n]; }
      }
    }
  }

  /** How a line of the AOSP file reappears. */
  function Laid(final: Props, e: Entry): seq<string> {
    match e
    case TextEntry(t) => [t]
    case PropEntry(k) => if k in final then [Shown(final, k)] else []
  }

  lemma AospStepOk(h: Comment, final: Props, o: Out, e: Entry)
    requires PropsOk(final) && OutOk(h, final, o) && EntryOk(e) && (e.PropEntry? ==> e.key in final)
    ensures var p := AospStep(final, o, e);
            && OutOk(h, final, p) && Served(final, p, e)
            && |Laid(final, e)| == 1 && Stable(final, Laid(final, e)[0])
            && p.lines == o.lines + Laid(final, e) && o.written <= p.written && p.header == o.header
  {
    if e.PropEntry? {
      ShownStable(final, e.key);
      WriteKeyOk(h, final, o, e.key);
    } else {
      AppendOk(h, final, o, e.text);
    }
    hide OutOk, Shown;
  }

  ghost predicate AospEntry(final: Props, e: Entry) {
    EntryOk(e) && (e.PropEntry? ==> e.key in final)
  }

  lemma {:induction false} AospPartOk(h: Comment, final: Props, es: seq<Entry>)
    requires PropsOk(final) && forall e <- es :: AospEntry(final, e)
    ensures var o := AospPart(final, es);
            OutOk(h, final, o) && !o.header && forall e <- es :: Served(final, o, e)
    decreases |es|
  {
    if es != [] {
      var n := |es| - 1;
      AospPartOk(h, final, es[..n]);
      var before, o := AospPart(final, es[..n]), AospPart(final, es);
      assert AospEntry(final, es[n]);
      AospStepOk(h, final, before, es[n]);
      assert o == AospStep(final, before, es[n]) && before.lines <= o.lines;
      hide AospPart, AospStep, OutOk, AospEntry, EntryOk, PropsOk, Shown, Laid;
      forall d | d in es ensures Served(final, o, d) {
        if d in es[..n] { assert Served(final, before, d); } else { assert d == es[n]; }
      }
    }
  }

  ghost predicate LaidOut(final: Props, es: seq<Entry>, ls: seq<string>) {
    && |ls| == |es|
    && (forall i :: 0 <= i < |es| ==> Laid(final, es[i]) == [ls[i]])
    && (forall l <- ls :: Stable(final, l))
  }

  lemma LaidOutNext(final: Props, es: seq<Entry>, ls: seq<string>)
    requires es != [] && ls != [] && LaidOut(final, es[..|es| - 1], ls[..|ls| - 1])
    requires Laid(final, es[|es| - 1]) == [ls[|ls| - 1]] && Stable(final, ls[|ls| - 1])
    ensures LaidOut(final, es, ls)
  {
    hide Laid, Stable;
    var n := |es| - 1;
    assert |ls| == n + 1;
    assert forall i :: 0 <= i < n ==> es[i] == es[..n][i] && ls[i] == ls[..n][i];
    assert forall l <- ls :: l in ls[..n] || l == ls[n];
  }

  lemma {:induction false} AospPartLaid(h: Comment, final: Props, es: seq<Entry>)
    requires PropsOk(final) && forall e <- es :: AospEntry(final, e)
    ensures LaidOut(final, es, AospPart(final, es).lines)
    decreases |es|
  {
    if es != [] {
      var n := |es| - 1;
      AospPartLaid(h, final, es[..n]);
      AospPartOk(h, final, es[..n]);
      assert AospEntry(final, es[n]);
      assert AospPart(final, es) == AospStep(final, AospPart(final, es[..n]), es[n]);
      hide AospPart, AospStep, OutOk, EntryOk, PropsOk, Stable, Shown, Laid, LaidOut;
      AospStepOk(h, final, AospPart(final, es[..n]), es[n]);
      var before, ls := AospPart(final, es[..n]).lines, AospPart(final, es).lines;
      assert ls[..|ls| - 1] == before;
      LaidOutNext(final, es, ls);
    }
  }

  // ----- the header is one list element but two lines -----

  function Flat(h: Comment, ls: seq<string>): seq<string> {
    if ls == [] then []
    else (if ls[0] == "\n" + h then ["", h] else [ls[0]]) + Flat(h, ls[1..])
  }

  lemma {:induction false} RenderFlat(h: Comment, ls: seq<string>)
    ensures Flat(h, ls) == [] <==> ls == []
    ensures Render(Flat(h, ls)) == Render(ls)
    decreases |ls|
  {
    if ls != [] {
      var l, rest := ls[0], ls[1..];
      var tail := Flat(h, rest);
      RenderFlat(h, rest);
      assert ls == [l] + rest;
      RenderCons(l, rest);
      if l == "\n" + h {
        var end := if rest == [] then "" else Render(rest);
        assert Flat(h, ls) == [""] + ([h] + tail);
        RenderCons("", [h] + tail);
        RenderCons(h, tail);
        assert ("\n" + h) + "\n" + end == "" + "\n" + (h + "\n" + end);
      } else {
        RenderCons(l, tail);
      }
    }
  }

  lemma {:induction false} FlatHolds(h: Comment, ls: seq<string>)
    ensures forall l <- ls :: l != "\n" + h ==> l in Flat(h, ls)
    ensures forall l <- Flat(h, ls) :: l == "" || l == h || (l in ls && l != "\n" + h)
    decreases |ls|
  {
    if ls != [] {
      FlatHolds(h, ls[1..]);
    }
  }

  lemma {:induction false} FlatPrefix(h: Comment, a: seq<string>, ls: seq<string>)
    requires a <= ls && "\n" + h !in a
    ensures a <= Flat(h, ls)
    decreases |ls|
  {
    if a != [] {
      assert a[1..] <= ls[1..];
      FlatPrefix(h, a[1..], ls[1..]);
      assert a == [a[0]] + a[1..];
    }
  }

  // ----- results -----

  /** The lines of the merged file: the output list with the header split. */
  function MergedLines(h: Comment, aosp: seq<string>, vendor: seq<string>): seq<string> {
    var o := MergeOut(h, aosp, vendor);
    if o.lines == [] then [""] else Flat(h, o.lines)
  }

  lemma HeaderStable(h: Comment, final: Props)
    requires OneLine(h)
    ensures Stable(final, "") && Stable(final, h) && !OneLine("\n" + h)
  {
    StripTrimmed("");
    StripTrimmed(h);
    assert ("\n" + h)[0] == '\n';
  }

  lemma FileLinesOneLine(file: Option<string>)
    ensures forall l <- FileLines(file) :: OneLine(l)
  {
    if file.Some? {
      LinesLack('\r', Universal(file.value));
      hide Lines, Universal;
    }
  }

  /** A character that is not in a text is in none of its lines. */
  lemma {:induction false} LinesLack(c: char, s: string)
    requires c !in s
    ensures forall l <- Lines(IsNewline, s) :: c !in l
    decreases |s|
  {
    if s != [] {
      var i := BreakAt(IsNewline, s);
      hide BreakAt;
      if i == |s| {
        assert Lines(IsNewline, s) == [s];
      } else {
        assert Lines(IsNewline, s) == [s[..i]] + Lines(IsNewline, s[i + 1..]);
        hide Lines;
        LinesLack(c, s[i + 1..]);
      }
    }
  }

  /** Everything known about the output before it is rendered. */
  lemma MergeOutOk(h: Comment, aosp: seq<string>, vendor: seq<string>)
    requires forall l <- aosp :: OneLine(l)
    requires forall l <- vendor :: OneLine(l)
    ensures var final, o := FinalProps(aosp, vendor), MergeOut(h, aosp, vendor);
            && PropsOk(final) && OutOk(h, final, o)
            && o.written == final.Keys
            && (forall e <- Structure(vendor) :: Served(final, o, e))
            && AospPart(final, Structure(aosp)).lines <= o.lines
  {
    var final := FinalProps(aosp, vendor);
    PropsOfOk(aosp);
    PropsOfOk(vendor);
    StructureOk(aosp);
    StructureOk(vendor);
    StructureKeys(aosp);
    assert forall e <- Structure(aosp) :: AospEntry(final, e);
    AospPartOk(h, final, Structure(aosp));
    var first := AospPart(final, Structure(aosp));
    VendorPartOk(h, final, first, Structure(vendor));
    var o := MergeOut(h, aosp, vendor);
    forall k | k in final ensures k in o.written {
      if k in PropsOf(aosp) {
        assert PropEntry(k) in Structure(aosp);
        assert Served(final, first, PropEntry(k));
      } else {
        assert PropEntry(k) in Structure(vendor);
        assert Served(final, o, PropEntry(k));
      }
    }
  }

  lemma {:induction false} StructureKeys(lines: seq<string>)
    ensures forall e <- Structure(lines) :: e.PropEntry? ==> e.key in PropsOf(lines)
    decreases |lines|
  {
    if lines != [] {
      var n := |lines| - 1;
      StructureKeys(lines[..n]);
      PropsStep(lines, n);
      assert lines[..n + 1] == lines;
    }
  }

  lemma MergedLinesStable(h: Comment, aosp: seq<string>, vendor: seq<string>)
    requires OneLine(h)
    requires forall l <- aosp :: OneLine(l)
    requires forall l <- vendor :: OneLine(l)
    ensures var final := FinalProps(aosp, vendor);
            forall l <- MergedLines(h, aosp, vendor) :: Stable(final, l)
  {
    var final, o := FinalProps(aosp, vendor), MergeOut(h, aosp, vendor);
    MergeOutOk(h, aosp, vendor);
    HeaderStable(h, final);
    FlatHolds(h, o.lines);
  }

  /** Reading the merged file gives exactly these lines. */
  lemma ReadBack(h: Comment, aosp: Option<string>, vendor: Option<string>)
    requires OneLine(h)
    ensures FileLines(Some(Merged(h, aosp, vendor))) == MergedLines(h, FileLines(aosp), FileLines(vendor))
    ensures Render(MergedLines(h, FileLines(aosp), FileLines(vendor))) == Merged(h, aosp, vendor)
  {
    var a, v := FileLines(aosp), FileLines(vendor);
    FileLinesOneLine(aosp);
    FileLinesOneLine(vendor);
    var o, r := MergeOut(h, a, v), MergedLines(h, a, v);
    MergedLinesStable(h, a, v);
    RenderFlat(h, o.lines);
    assert Render([""]) == Render([]);
    RenderChars(r);
    assert '\r' !in Render(r);
    UniversalIdentity(Render(r));
    LinesOfRender(IsNewline, r);
  }

  lemma {:induction false} StableValues(final: Props, lines: seq<string>)
    requires forall l <- lines :: Stable(final, l)
    ensures forall k <- PropsOf(lines) :: k in final && PropsOf(lines)[k] == final[k]
    decreases |lines|
  {
    if lines != [] {
      var n := |lines| - 1;
      StableValues(final, lines[..n]);
      assert Stable(final, lines[n]);
    }
  }

  lemma LastLine<T>(s: seq<T>)
    requires s != []
    ensures s == s[..|s| - 1] + [s[|s| - 1]]
  {}

  lemma {:induction false} StableKey(final: Props, lines: seq<string>, k: string)
    requires PropsOk(final) && k in final && Shown(final, k) in lines
    ensures k in PropsOf(lines)
    decreases |lines|
  {
    var n := |lines| - 1;
    LastLine(lines);
    PropsOfLast(lines[..n], lines[n]);
    hide PropsOf, ParseLine;
    if Shown(final, k) in lines[..n] {
      StableKey(final, lines[..n], k);
    } else {
      assert lines[n] == Shown(final, k);
      ShownParses(k, final[k]);
    }
  }

  lemma ShownMerged(h: Comment, aosp: seq<string>, vendor: seq<string>, k: string)
    requires OneLine(h) && k in FinalProps(aosp, vendor)
    requires forall l <- aosp :: OneLine(l)
    requires forall l <- vendor :: OneLine(l)
    ensures Shown(FinalProps(aosp, vendor), k) in MergedLines(h, aosp, vendor)
  {
    var final, o := FinalProps(aosp, vendor), MergeOut(h, aosp, vendor);
    MergeOutOk(h, aosp, vendor);
    assert Shown(final, k) in o.lines;
    ShownStable(final, k);
    HeaderStable(h, final);
    FlatHolds(h, o.lines);
    hide Flat, MergeOut, FinalProps, OutOk, Shown;
    assert OneLine(Shown(final, k));
    hide OneLine, Stable;
  }

  lemma SameProps(p: Props, q: Props)
    requires forall k <- p :: k in q && p[k] == q[k]
    requires forall k <- q :: k in p
    ensures p == q
  {}

  lemma MergedProps(h: Comment, aosp: seq<string>, vendor: seq<string>)
    requires OneLine(h)
    requires forall l <- aosp :: OneLine(l)
    requires forall l <- vendor :: OneLine(l)
    ensures PropsOf(MergedLines(h, aosp, vendor)) == FinalProps(aosp, vendor)
  {
    var final, r := FinalProps(aosp, vendor), MergedLines(h, aosp, vendor);
    MergeOutOk(h, aosp, vendor);
    hide FinalProps, PropsOf, PropsOk, MergedLines, MergeOut, OutOk, Served, OneLine, Stable, Shown;
    MergedLinesStable(h, aosp, vendor);
    StableValues(final, r);
    forall k | k in final ensures k in PropsOf(r) {
      ShownMerged(h, aosp, vendor, k);
      StableKey(final, r, k);
    }
    SameProps(PropsOf(r), final);
  }

  /** Parsing the rendered merge gives the vendor pairs overridden by the AOSP
      pairs, for any two files. */
  lemma RoundTrip(h: Comment, aosp: Option<string>, vendor: Option<string>)
    requires OneLine(h)
    ensures PropsOf(FileLines(Some(Merged(h, aosp, vendor))))
         == PropsOf(FileLines(vendor)) + PropsOf(FileLines(aosp))
  {
    ReadBack(h, aosp, vendor);
    FileLinesOneLine(aosp);
    FileLinesOneLine(vendor);
    MergedProps(h, FileLines(aosp), FileLines(vendor));
  }

  /** What becomes of a line of the AOSP file. */
  predicate LineKept(line: string, merged: string, final: Props) {
    match ParseLine(line)
    case TextLine(t) => merged == t
    case Pair(k, _) => k in final && merged == k + "=" + final[k]
  }

  lemma LaidKept(final: Props, lines: seq<string>, ls: seq<string>, i: nat)
    requires LaidOut(final, Structure(lines), ls) && i < |lines|
    ensures i < |ls| && LineKept(lines[i], ls[i], final)
  {
    hide ParseLine, Stable;
    assert Structure(lines)[i] == EntryOf(lines[i]);
    assert Laid(final, Structure(lines)[i]) == [ls[i]];
  }

  lemma AospLaid(h: Comment, aosp: seq<string>, vendor: seq<string>)
    requires OneLine(h)
    requires forall l <- aosp :: OneLine(l)
    requires forall l <- vendor :: OneLine(l)
    ensures var final := FinalProps(aosp, vendor);
            var first := AospPart(final, Structure(aosp)).lines;
            LaidOut(final, Structure(aosp), first) && first <= MergedLines(h, aosp, vendor)
  {
    var final, o := FinalProps(aosp, vendor), MergeOut(h, aosp, vendor);
    var es := Structure(aosp);
    MergeOutOk(h, aosp, vendor);
    StructureOk(aosp);
    StructureKeys(aosp);
    assert forall e <- es :: AospEntry(final, e);
    AospPartLaid(h, final, es);
    HeaderStable(h, final);
    hide AospPart, OutOk, Served, AospEntry, PropsOk, Structure, FinalProps, MergeOut, Laid;
    assert "\n" + h !in AospPart(final, es).lines;
    FlatPrefix(h, AospPart(final, es).lines, o.lines);
  }

  /** The merged file starts with the AOSP file, line for line: text as it was,
      blank lines emptied, every property line with its final value. */
  lemma LayoutKept(h: Comment, aosp: Option<string>, vendor: Option<string>, i: nat)
    requires OneLine(h) && i < |FileLines(aosp)|
    ensures i < |FileLines(Some(Merged(h, aosp, vendor)))|
    ensures LineKept(FileLines(aosp)[i], FileLines(Some(Merged(h, aosp, vendor)))[i],
                     FinalProps(FileLines(aosp), FileLines(vendor)))
  {
    var a, v := FileLines(aosp), FileLines(vendor);
    ReadBack(h, aosp, vendor);
    FileLinesOneLine(aosp);
    FileLinesOneLine(vendor);
    hide FileLines, Merged, OneLine;
    AospLaid(h, a, v);
    hide MergedLines, AospPart, FinalProps;
    LaidKept(FinalProps(a, v), a, AospPart(FinalProps(a, v), Structure(a)).lines, i);
  }

  // ----- where the vendor header stands -----

  /** An entry that only the vendor file has, seen from the AOSP part. */
  ghost predicate IsNew(final: Props, first: Out, e: Entry) {
    match e
    case TextEntry(t) => t != "" && t !in first.lines
    case PropEntry(k) => k !in first.written && k in final
  }

  lemma {:induction false} WrittenKeys(final: Props, es: seq<Entry>, k: string)
    ensures k in AospPart(final, es).written <==> PropEntry(k) in es && k in final
    decreases |es|
  {
    if es != [] {
      var n := |es| - 1;
      WrittenKeys(final, es[..n], k);
      assert es == es[..n] + [es[n]];
      assert AospPart(final, es) == AospStep(final, AospPart(final, es[..n]), es[n]);
      hide AospPart, Shown;
    }
  }

  lemma {:induction false} FlatConcat(h: Comment, a: seq<string>, b: seq<string>)
    ensures Flat(h, a + b) == Flat(h, a) + Flat(h, b)
    decreases |a|
  {
    if a == [] {
      assert a + b == b;
    } else {
      FlatConcat(h, a[1..], b);
      assert (a + b)[0] == a[0] && (a + b)[1..] == a[1..] + b;
      var x := if a[0] == "\n" + h then ["", h] else [a[0]];
      assert Flat(h, a + b) == x + Flat(h, a[1..] + b);
      assert Flat(h, a) == x + Flat(h, a[1..]);
      hide Flat;
      Associate(x, Flat(h, a[1..]), Flat(h, b));
    }
  }

  /** A line of the vendor file that the AOSP file does not make up for: a key that it
      does not have, or text that is not in the part that comes from it. */
  ghost predicate VendorOnly(aosp: seq<string>, first: seq<string>, line: string) {
    match ParseLine(line)
    case TextLine(t) => t != "" && t !in first
    case Pair(k, _) => k !in PropsOf(aosp)
  }

  lemma NewExactly(h: Comment, aosp: seq<string>, vendor: seq<string>, line: string)
    requires forall l <- aosp :: OneLine(l)
    requires line in vendor
    ensures var final := FinalProps(aosp, vendor);
            var first := AospPart(final, Structure(aosp));
            IsNew(final, first, EntryOf(line)) <==> VendorOnly(aosp, first.lines, line)
  {
    var final := FinalProps(aosp, vendor);
    var i :| 0 <= i < |vendor| && vendor[i] == line;
    assert Structure(vendor)[i] == EntryOf(line) && Structure(vendor)[i] in Structure(vendor);
    StructureKeys(aosp);
    StructureKeys(vendor);
    PropsOfOk(aosp);
    if ParseLine(line).Pair? {
      WrittenKeys(final, Structure(aosp), ParseLine(line).key);
    }
    hide ParseLine, AospPart, PropsOf, Structure;
  }

  lemma FlatHeader(h: Comment, rest: seq<string>)
    ensures Flat(h, ["\n" + h] + rest) == ["", h] + Flat(h, rest)
  {
    assert (["\n" + h] + rest)[1..] == rest;
  }

  lemma HeadedFlat(h: Comment, first: seq<string>, rest: seq<string>)
    requires Flat(h, first) == first
    ensures Flat(h, first + (["\n" + h] + rest)) == first + ["", h] + Flat(h, rest)
  {
    FlatConcat(h, first, ["\n" + h] + rest);
    FlatHeader(h, rest);
    hide Flat;
    assert first + (["", h] + Flat(h, rest)) == first + ["", h] + Flat(h, rest);
  }

  lemma {:induction false} AospHeader(final: Props, es: seq<Entry>)
    ensures !AospPart(final, es).header
    decreases |es|
  {
    if es != [] { AospHeader(final, es[..|es| - 1]); }
  }

  /** No line of the AOSP part is taken for the header. */
  lemma AospUnflat(h: Comment, aosp: seq<string>, vendor: seq<string>)
    requires OneLine(h)
    requires forall l <- aosp :: OneLine(l)
    requires forall l <- vendor :: OneLine(l)
    ensures var first := AospPart(FinalProps(aosp, vendor), Structure(aosp)).lines; Flat(h, first) == first
  {
    var first := AospPart(FinalProps(aosp, vendor), Structure(aosp)).lines;
    AospLaid(h, aosp, vendor);
    HeaderStable(h, FinalProps(aosp, vendor));
    hide AospPart, FinalProps, Structure, MergedLines, Laid;
    assert "\n" + h !in first;
    FlatSame(h, first);
  }

  lemma {:induction false} FlatSame(h: Comment, ls: seq<string>)
    requires "\n" + h !in ls
    ensures Flat(h, ls) == ls
    decreases |ls|
  {
    if ls != [] {
      FlatSame(h, ls[1..]);
      assert ls == [ls[0]] + ls[1..];
    }
  }

  /** The header with the lines behind it. */
  function Behind(h: Comment, tail: seq<string>): seq<string> { if tail == [] then [] else ["\n" + h] + tail }

  /** `tail[m]` is written for entry `from[m]`, in their order and each once. */
  ghost predicate WrittenFor(final: Props, first: Out, es: seq<Entry>, tail: seq<string>, from: seq<nat>) {
    && |from| == |tail|
    && (forall i, j :: 0 <= i < j < |from| ==> from[i] < from[j] && tail[i] != tail[j])
    && forall i :: 0 <= i < |from| ==>
         from[i] < |es| && IsNew(final, first, es[from[i]]) && Says(final, es[from[i]], tail[i])
  }

  ghost predicate Streamed(final: Props, first: Out, es: seq<Entry>, tail: seq<string>, from: seq<nat>) {
    && WrittenFor(final, first, es, tail, from)
    && forall e <- es :: IsNew(final, first, e) ==> exists l :: l in tail && Says(final, e, l)
  }

  ghost predicate Says(final: Props, e: Entry, l: string) {
    match e
    case TextEntry(t) => l == t
    case PropEntry(k) => k in final && l == Shown(final, k)
  }

  /** Which keys are written behind the AOSP part. */
  ghost predicate TailKeys(final: Props, first: Out, o: Out, es: seq<Entry>, tail: seq<string>, from: seq<nat>)
    requires |from| == |tail| && forall i :: 0 <= i < |from| ==> from[i] < |es|
  {
    && first.written <= o.written
    && (forall k <- o.written :: k in final && (k in first.written || Shown(final, k) in tail))
    && forall i :: 0 <= i < |from| && es[from[i]].PropEntry? ==> es[from[i]].key in o.written
  }

  lemma SaysOnce(final: Props, e: Entry, k: string, l: string)
    requires PropsOk(final) && EntryOk(e) && k in final && Says(final, e, l) && l == Shown(final, k)
    ensures e == PropEntry(k)
  {
    ShownParses(k, final[k]);
    if e.PropEntry? { ShownParses(e.key, final[e.key]); }
  }

  lemma WrittenForAdd(final: Props, first: Out, es: seq<Entry>, e: Entry, tail: seq<string>, from: seq<nat>, l: string)
    requires WrittenFor(final, first, es, tail, from) && IsNew(final, first, e) && Says(final, e, l) && l !in tail
    ensures WrittenFor(final, first, es + [e], tail + [l], from + [|es|])
  {
    hide IsNew, Says;
    var all, more, to := es + [e], tail + [l], from + [|es|];
    forall i | 0 <= i < |to|
      ensures to[i] < |all| && IsNew(final, first, all[to[i]]) && Says(final, all[to[i]], more[i])
    {
      if i < |from| { assert all[to[i]] == es[from[i]] && more[i] == tail[i]; }
    }
    forall i, j | 0 <= i < j < |to| ensures to[i] < to[j] && more[i] != more[j] {
      assert more[i] == tail[i] && tail[i] in tail;
    }
  }

  /** One more entry for which a line is written. */
  lemma StreamAdd(final: Props, first: Out, es: seq<Entry>, e: Entry, tail: seq<string>, from: seq<nat>, l: string)
    requires Streamed(final, first, es, tail, from) && IsNew(final, first, e) && Says(final, e, l) && l !in tail
    ensures Streamed(final, first, es + [e], tail + [l], from + [|es|])
  {
    WrittenForAdd(final, first, es, e, tail, from, l);
    hide IsNew, Says, WrittenFor;
    var all, more := es + [e], tail + [l];
    assert l in more;
    forall d | d in all && IsNew(final, first, d) ensures exists x :: x in more && Says(final, d, x) {
      if d in es {
        var x :| x in tail && Says(final, d, x);
        assert x in more;
      }
    }
  }

  /** One more entry for which there is a line already, or that is not new. */
  lemma StreamSkip(final: Props, first: Out, es: seq<Entry>, e: Entry, tail: seq<string>, from: seq<nat>)
    requires Streamed(final, first, es, tail, from)
    requires IsNew(final, first, e) ==> exists l :: l in tail && Says(final, e, l)
    ensures Streamed(final, first, es + [e], tail, from)
  {
    hide IsNew, Says;
    var all := es + [e];
    assert forall i :: 0 <= i < |from| ==> all[from[i]] == es[from[i]];
    assert WrittenFor(final, first, all, tail, from);
    hide WrittenFor;
    assert forall d <- all :: d in es || d == e;
  }

  /** The output so far: the AOSP part, and behind it what is `Streamed`. */
  ghost predicate Stands(h: Comment, final: Props, first: Out, o: Out, es: seq<Entry>, tail: seq<string>,
                         from: seq<nat>)
  {
    && o.lines == first.lines + Behind(h, tail) && (o.header <==> tail != [])
    && Streamed(final, first, es, tail, from) && TailKeys(final, first, o, es, tail, from)
  }

  /** A line that is written is none of those behind the AOSP part. */
  lemma WrittenOnce(h: Comment, final: Props, first: Out, o: Out, es: seq<Entry>, e: Entry, tail: seq<string>,
                    from: seq<nat>, l: string)
    requires Stands(h, final, first, o, es, tail, from) && PropsOk(final) && forall d <- es :: EntryOk(d)
    requires Says(final, e, l)
    requires match e case TextEntry(t) => t !in o.lines case PropEntry(k) => k !in o.written
    ensures l !in tail
  {
    hide IsNew, EntryOk, PropsOk, Shown;
    assert forall x <- tail :: x in Behind(h, tail) && x in o.lines;
    if l in tail && e.PropEntry? {
      var i :| 0 <= i < |tail| && tail[i] == l;
      assert es[from[i]] in es && Says(final, es[from[i]], l);
      SaysOnce(final, es[from[i]], e.key, l);
    }
  }

  lemma TextThere(h: Comment, first: Out, o: Out, tail: seq<string>, t: string)
    requires o.lines == first.lines + Behind(h, tail) && t in o.lines && t !in first.lines && OneLine(t)
    ensures t in tail
  {
    assert ("\n" + h)[0] == '\n';
    assert t != "\n" + h;
    assert t in Behind(h, tail);
  }

  lemma BehindAdd(h: Comment, first: seq<string>, tail: seq<string>, l: string)
    ensures first + Behind(h, tail + [l])
         == (if tail == [] then (first + Behind(h, tail)) + ["\n" + h] else first + Behind(h, tail)) + [l]
  {
    if tail == [] {
      assert tail + [l] == [l];
      assert first + (["\n" + h] + [l]) == (first + []) + ["\n" + h] + [l];
    } else {
      assert first + (["\n" + h] + (tail + [l])) == (first + (["\n" + h] + tail)) + [l];
    }
  }

  lemma KeysAdd(final: Props, first: Out, o: Out, o': Out, es: seq<Entry>, e: Entry, tail: seq<string>, from: seq<nat>,
                l: string)
    requires |from| == |tail| && forall i :: 0 <= i < |from| ==> from[i] < |es|
    requires TailKeys(final, first, o, es, tail, from) && Says(final, e, l)
    requires o'.written == o.written + if e.PropEntry? then {e.key} else {}
    ensures TailKeys(final, first, o', es + [e], tail + [l], from + [|es|])
  {
    hide Shown;
    var all, more, to := es + [e], tail + [l], from + [|es|];
    assert forall i :: 0 <= i < |from| ==> all[to[i]] == es[from[i]];
    assert l in more && forall x <- tail :: x in more;
  }

  lemma KeysSkip(final: Props, first: Out, o: Out, es: seq<Entry>, e: Entry, tail: seq<string>, from: seq<nat>)
    requires |from| == |tail| && forall i :: 0 <= i < |from| ==> from[i] < |es|
    requires TailKeys(final, first, o, es, tail, from)
    ensures TailKeys(final, first, o, es + [e], tail, from)
  {
    hide Shown;
    assert forall i :: 0 <= i < |from| ==> (es + [e])[from[i]] == es[from[i]];
  }

  lemma StandsNext(h: Comment, final: Props, first: Out, o: Out, es: seq<Entry>, e: Entry, tail: seq<string>,
                   from: seq<nat>) returns (tail': seq<string>, from': seq<nat>)
    requires Stands(h, final, first, o, es, tail, from) && PropsOk(final)
    requires EntryOk(e) && forall d <- es :: EntryOk(d)
    ensures Stands(h, final, first, VendorStep(h, final, o, e), es + [e], tail', from')
  {
    var o' := VendorStep(h, final, o, e);
    var adds := match e
      case TextEntry(t) => t != "" && t !in o.lines
      case PropEntry(k) => k !in o.written && k in final;
    if adds {
      var l := if e.TextEntry? then e.text else Shown(final, e.key);
      tail', from' := tail + [l], from + [|es|];
      WrittenOnce(h, final, first, o, es, e, tail, from, l);
      assert IsNew(final, first, e);
      hide IsNew, EntryOk, PropsOk, Shown;
      KeysAdd(final, first, o, o', es, e, tail, from, l);
      StreamAdd(final, first, es, e, tail, from, l);
      hide Streamed, TailKeys, Says;
      BehindAdd(h, first.lines, tail, l);
      hide Behind;
    } else {
      tail', from' := tail, from;
      KeysSkip(final, first, o, es, e, tail, from);
      if IsNew(final, first, e) { SkippedThere(h, final, first, o, es, e, tail, from); }
      hide IsNew, EntryOk, PropsOk, Shown;
      StreamSkip(final, first, es, e, tail, from);
      hide Streamed, TailKeys, Says, Behind;
    }
  }

  lemma SkippedThere(h: Comment, final: Props, first: Out, o: Out, es: seq<Entry>, e: Entry, tail: seq<string>,
                     from: seq<nat>)
    requires Stands(h, final, first, o, es, tail, from) && EntryOk(e) && IsNew(final, first, e)
    requires match e case TextEntry(t) => t in o.lines case PropEntry(k) => k in o.written
    ensures exists l :: l in tail && Says(final, e, l)
  {
    hide Shown, Streamed, Behind, ParseLine;
    if e.TextEntry? {
      TextThere(h, first, o, tail, e.text);
      assert Says(final, e, e.text);
    } else {
      assert Says(final, e, Shown(final, e.key));
    }
  }

  /** Behind the AOSP part comes, in the order of the vendor file and each once, a line
      for every entry that only the vendor file has, and nothing else. */
  lemma {:induction false} VendorStreams(h: Comment, final: Props, first: Out, es: seq<Entry>)
    returns (tail: seq<string>, from: seq<nat>)
    requires PropsOk(final) && !first.header && (forall e <- es :: EntryOk(e)) && first.written <= final.Keys
    ensures Stands(h, final, first, VendorPart(h, final, first, es), es, tail, from)
    decreases |es|
  {
    if es == [] {
      tail, from := [], [];
      assert first.lines + [] == first.lines;
    } else {
      var n := |es| - 1;
      assert es == es[..n] + [es[n]] && es[n] in es && forall e <- es[..n] :: e in es;
      assert VendorPart(h, final, first, es) == VendorStep(h, final, VendorPart(h, final, first, es[..n]), es[n]);
      hide VendorPart, VendorStep, Stands, EntryOk, PropsOk;
      tail, from := VendorStreams(h, final, first, es[..n]);
      tail, from := StandsNext(h, final, first, VendorPart(h, final, first, es[..n]), es[..n], es[n], tail, from);
    }
  }

  /** No line behind the AOSP part is taken for the header. */
  lemma TailUnflat(h: Comment, final: Props, first: Out, es: seq<Entry>, tail: seq<string>, from: seq<nat>)
    requires Streamed(final, first, es, tail, from) && PropsOk(final) && forall e <- es :: EntryOk(e)
    ensures Flat(h, tail) == tail
  {
    assert ("\n" + h)[0] == '\n';
    forall l | l in tail ensures l != "\n" + h {
      var i :| 0 <= i < |tail| && tail[i] == l;
      var e := es[from[i]];
      assert e in es && Says(final, e, l);
      if e.PropEntry? { ShownParses(e.key, final[e.key]); }
      assert OneLine(l);
    }
    FlatSame(h, tail);
  }

  /** The lines of the merged file: the AOSP part, and if the vendor file has anything of
      its own, an empty line, the header, and a line for each such entry, in the order of
      the vendor file and each once. */
  lemma MergedTail(h: Comment, aosp: Option<string>, vendor: Option<string>)
    returns (first: Out, tail: seq<string>, from: seq<nat>)
    requires OneLine(h)
    ensures var final := FinalProps(FileLines(aosp), FileLines(vendor));
      && first == AospPart(final, Structure(FileLines(aosp)))
      && Streamed(final, first, Structure(FileLines(vendor)), tail, from)
    ensures FileLines(Some(Merged(h, aosp, vendor)))
         == if first.lines == [] && tail == [] then [""]
            else first.lines + if tail == [] then [] else ["", h] + tail
  {
    var a, v := FileLines(aosp), FileLines(vendor);
    var final := FinalProps(a, v);
    ReadBack(h, aosp, vendor);
    FileLinesOneLine(aosp);
    FileLinesOneLine(vendor);
    hide FileLines, Merged, OneLine;
    first := AospPart(final, Structure(a));
    tail, from := TailOf(h, a, v);
    AospUnflat(h, a, v);
    hide FinalProps, AospPart, Streamed, Structure, Flat, MergeOut, Behind;
    FlatTail(h, MergeOut(h, a, v).lines, first.lines, tail);
  }

  lemma FlatTail(h: Comment, lines: seq<string>, first: seq<string>, tail: seq<string>)
    requires lines == first + Behind(h, tail) && Flat(h, first) == first && Flat(h, tail) == tail
    ensures (if lines == [] then [""] else Flat(h, lines))
         == if first == [] && tail == [] then [""] else first + if tail == [] then [] else ["", h] + tail
  {
    if tail == [] {
      hide Flat;
      NothingBehind(first);
    } else {
      assert lines == first + (["\n" + h] + tail);
      HeadedFlat(h, first, tail);
      hide Flat, Behind;
      Associate(first, ["", h], tail);
      assert |lines| > 0;
    }
  }

  lemma NothingBehind<T>(s: seq<T>)
    ensures s + [] == s
  {}

  lemma Associate<T>(a: seq<T>, b: seq<T>, c: seq<T>)
    ensures a + b + c == a + (b + c)
  {}

  lemma TailOf(h: Comment, aosp: seq<string>, vendor: seq<string>) returns (tail: seq<string>, from: seq<nat>)
    requires OneLine(h)
    requires forall l <- aosp :: OneLine(l)
    requires forall l <- vendor :: OneLine(l)
    ensures var final := FinalProps(aosp, vendor);
            var first := AospPart(final, Structure(aosp));
            && Streamed(final, first, Structure(vendor), tail, from) && Flat(h, tail) == tail
            && MergeOut(h, aosp, vendor).lines == first.lines + Behind(h, tail)
  {
    var final := FinalProps(aosp, vendor);
    var first, es := AospPart(final, Structure(aosp)), Structure(vendor);
    MergeOutOk(h, aosp, vendor);
    StructureOk(vendor);
    AospHeader(final, Structure(aosp));
    forall k | k in first.written ensures k in final { WrittenKeys(final, Structure(aosp), k); }
    hide FinalProps, AospPart, OutOk, Served, EntryOk, PropsOk, Structure, VendorPart, Streamed, TailKeys, Flat;
    tail, from := VendorStreams(h, final, first, es);
    TailUnflat(h, final, first, es, tail, from);
  }

  lemma StructureStep(lines: seq<string>)
    requires lines != []
    ensures var n, es := |lines| - 1, Structure(lines);
            es[..n] == Structure(lines[..n]) && es[n] == EntryOf(lines[n]) && |es| == n + 1
  {}

  /** Stable lines are laid out again exactly as they are. */
  lemma {:induction false} StableLayout(final: Props, lines: seq<string>)
    requires forall l <- lines :: Stable(final, l)
    ensures AospPart(final, Structure(lines)).lines == lines
    ensures forall e <- Structure(lines) :: Served(final, AospPart(final, Structure(lines)), e)
    decreases |lines|
  {
    if lines != [] {
      var n := |lines| - 1;
      StableLayout(final, lines[..n]);
      StructureStep(lines);
      assert Stable(final, lines[n]);
      var es := Structure(lines);
      assert AospPart(final, es) == AospStep(final, AospPart(final, es[..n]), es[n]);
      hide AospPart, Structure;
      assert lines == lines[..n] + [lines[n]];
      forall e | e in es ensures Served(final, AospPart(final, es), e) {
        if e in es[..n] { assert Served(final, AospPart(final, es[..n]), e); } else { assert e == es[n]; }
      }
    }
  }

  lemma {:induction false} NothingToAdd(h: Comment, final: Props, o: Out, es: seq<Entry>)
    requires forall e <- es :: Served(final, o, e)
    ensures VendorPart(h, final, o, es) == o
    decreases |es|
  {
    if es != [] {
      NothingToAdd(h, final, o, es[..|es| - 1]);
      assert Served(final, o, es[|es| - 1]);
    }
  }

  lemma MergeAgain(h: Comment, aosp: seq<string>, vendor: seq<string>)
    requires OneLine(h)
    requires forall l <- aosp :: OneLine(l)
    requires forall l <- vendor :: OneLine(l)
    ensures MergeOut(h, MergedLines(h, aosp, vendor), vendor).lines == MergedLines(h, aosp, vendor)
  {
    var final, o, r := FinalProps(aosp, vendor), MergeOut(h, aosp, vendor), MergedLines(h, aosp, vendor);
    MergeOutOk(h, aosp, vendor);
    MergedLinesStable(h, aosp, vendor);
    MergedProps(h, aosp, vendor);
    assert FinalProps(r, vendor) == final;
    StableLayout(final, r);
    PropsOfOk(r);
    FlatHolds(h, o.lines);
    HeaderStable(h, final);
    StructureOk(vendor);
    var p := AospPart(final, Structure(r));
    forall e | e in Structure(vendor) ensures Served(final, p, e) {
      assert Served(final, o, e) && EntryOk(e);
      match e
      case TextEntry(t) => assert t != "" ==> t in r;
      case PropEntry(k) => assert k in final ==> PropEntry(k) in Structure(r);
    }
    NothingToAdd(h, final, p, Structure(vendor));
  }

  /** Merging the merged file with the same vendor file writes the same text. */
  lemma MergeIdempotent(h: Comment, aosp: Option<string>, vendor: Option<string>)
    requires OneLine(h)
    ensures var once := Merged(h, aosp, vendor);
            Merged(h, Some(once), vendor) == once
  {
    ReadBack(h, aosp, vendor);
    FileLinesOneLine(aosp);
    FileLinesOneLine(vendor);
    MergeAgain(h, FileLines(aosp), FileLines(vendor));
  }

  /** The header the source writes, without the line end in front of it. */
  function VendorHeader(): (h: Comment)
    ensures OneLine(h)
  {
    VendorHeaderFront() + VendorHeaderBack()
  }

  function VendorHeaderFront(): (s: string)
    ensures OneLine(s) && s != "" && s[0] == '#' && !IsSpace(s[0])
  {
    var a, b, c := "# Added ", "unique structural ", "entries and ";
    assert OneLine(a) && OneLine(b) && OneLine(c);
    a + b + c
  }

  function VendorHeaderBack(): (s: string)
    ensures OneLine(s) && s != "" && !IsSpace(s[|s| - 1])
  {
    var a, b, c := "properties ", "from Vendor ", "build";
    assert OneLine(a) && OneLine(b) && OneLine(c);
    a + b + c
  }

  lemma HeaderFrontText()
    ensures VendorHeaderFront() == "# Added unique structural entries and "
  {}

  lemma HeaderBackText()
    ensures VendorHeaderBack() == "properties from Vendor build"
  {}

  lemma VendorHeaderText()
    ensures VendorHeader() == "# Added unique structural entries and " + "properties from Vendor build"
  {
    HeaderFrontText();
    HeaderBackText();
    hide VendorHeaderFront, VendorHeaderBack;
  }
}
