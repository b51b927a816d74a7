/** fast_copy.py, `_do_copy`: one copy through a chain of transfer methods into
    a temporary file and an atomic replace. System calls are methods of a file
    system that may fail, and may transfer less than they were asked to. */
module FastCopy {
  import opened Options

  newtype byte = b: int | 0 <= b < 256

  type Content = seq<byte>

  /** Names handed out by `mkstemp` are never used for anything else. */
  datatype Path = Named(name: string) | Temp(id: nat)

  type Files = map<Path, Content>

  /** What the platform offers and what the caller asked for. */
  datatype Settings = Settings(bufsize: int, hasCopyFileRange: bool, hasSendfile: bool, reflink: bool, fallback: bool)

  /** The transfer methods in the order `_do_copy` tries them. */
  datatype Method = Range | Send | Reflink | Streaming

  /** Parts of a copy in which a call can raise: making the temporary file, a
      transfer method, replacing the destination. */
  datatype Part = Temporary | Within(m: Method) | Replacement

  /** No transfer loop that could stop early for want of a buffer can succeed:
      the buffer has a size, or neither loop that uses it is available. */
  predicate Sound(o: Settings) { o.bufsize != 0 || (!o.hasCopyFileRange && !o.fallback) }

  /** Only the temporary file may differ. */
  ghost predicate OnlyTemp(before: Files, after: Files, tmp: Path) {
    tmp in after && after - {tmp} == before - {tmp}
  }

  class FileSystem {
    var files: Files
    /** The parts of the last copy in which a call has raised. */
    ghost var raised: set<Part>

    constructor (files: Files)
      ensures this.files == files && raised == {}
    { this.files, raised := files, {}; }

    /** `mkstemp`: a fresh empty file, or nothing. A copy starts with it. */
    method MakeTemp() returns (tmp: Option<Path>)
      modifies this
      ensures tmp.None? ==> files == old(files)
      ensures tmp.Some? ==> tmp.value.Temp? && tmp.value !in old(files) && files == old(files)[tmp.value := []]
      ensures raised == if tmp.None? then {Temporary} else {}
    {
      var id: nat := *;
      if Temp(id) in files {
        raised := {Temporary};
        return None;
      }
      raised := {};
      files := files[Temp(id) := []];
      tmp := Some(Temp(id));
    }

    /** Open `src` for reading and truncate `tmp`; false when an open raises. */
    method OpenBoth(src: Path, tmp: Path, ghost part: Part) returns (ok: bool)
      requires tmp in files
      modifies this
      ensures ok ==> src in old(files)
      ensures files == if ok then old(files)[tmp := []] else old(files)
      ensures raised == old(raised) + if ok then {} else {part}
    {
      var raises: bool := *;
      if raises || src !in files {
        raised := raised + {part};
        return false;
      }
      files := files[tmp := []];
      ok := true;
    }

    /** Append at most `count` bytes of `src` from `off`; nothing on an error.
        Zero bytes are moved only at the end of the source or for `count` 0. */
    method Transfer(src: Path, off: nat, tmp: Path, count: int, ghost part: Part) returns (n: Option<nat>)
      requires src in files && tmp in files && src != tmp && off <= |files[src]|
      modifies this
      ensures n.None? ==> files == old(files)
      ensures count < 0 ==> n.None?
      ensures n.Some? ==> n.value <= count && off + n.value <= |old(files)[src]|
                          && files == old(files)[tmp := old(files)[tmp] + old(files)[src][off..off + n.value]]
                          && (n.value == 0 ==> count == 0 || off == |old(files)[src]|)
      ensures raised == old(raised) + if n.None? then {part} else {}
    {
      var raises: bool := *;
      if raises || count < 0 {
        raised := raised + {part};
        return None;
      }
      var left := |files[src]| - off;
      var most := if count < left then count else left;
      var some: nat := *;
      var k: nat := if 0 < some < most then some else most;
      files := files[tmp := files[tmp] + files[src][off..off + k]];
      n := Some(k);
    }

    /** A foreign copy tool: the whole source, or any content and a failure. */
    method Cp(src: Path, tmp: Path) returns (ok: bool)
      requires tmp in files
      modifies this
      ensures ok ==> src in old(files) && files == old(files)[tmp := old(files)[src]]
      ensures OnlyTemp(old(files), files, tmp)
      ensures raised == old(raised) + if ok then {} else {Within(Reflink)}
    {
      var raises: bool := *;
      if raises || src !in files {
        var junk: Content := *;
        files := files[tmp := junk];
        raised := raised + {Within(Reflink)};
        return false;
      }
      files := files[tmp := files[src]];
      ok := true;
    }

    /** `os.replace`. */
    method Replace(tmp: Path, dst: Path) returns (ok: bool)
      requires tmp in files && tmp != dst
      modifies this
      ensures files == if ok then (old(files) - {tmp})[dst := old(files)[tmp]] else old(files)
      ensures raised == old(raised) + if ok then {} else {Replacement}
    {
      ok := *;
      if ok {
        files := (files - {tmp})[dst := files[tmp]];
      } else {
        raised := raised + {Replacement};
      }
    }

    /** `os.remove`; an exception is swallowed. */
    method Remove(tmp: Path)
      modifies this`files
      ensures files == old(files) || files == old(files) - {tmp}
    {
      var raises: bool := *;
      if !raises { files := files - {tmp}; }
    }
  }

  /** The `copy_file_range` attempt. */
  method TryCopyFileRange(fs: FileSystem, src: Path, tmp: Path, bufsize: int) returns (copied: bool)
    requires tmp in fs.files && src != tmp
    modifies fs
    ensures OnlyTemp(old(fs.files), fs.files, tmp)
    ensures fs.raised == old(fs.raised) + if copied then {} else {Within(Range)}
    ensures copied ==> src in old(fs.files)
    ensures copied && bufsize != 0 ==> fs.files[tmp] == old(fs.files)[src]
  {
    copied := fs.OpenBoth(src, tmp, Within(Range));
    if !copied { return; }
    ghost var s: Content := old(fs.files)[src];
    var off: nat := 0;
    while true
      invariant OnlyTemp(old(fs.files), fs.files, tmp) && fs.raised == old(fs.raised)
      invariant src in old(fs.files) && src in fs.files && fs.files[src] == s
      invariant off <= |s| && fs.files[tmp] == s[..off]
      decreases |s| - off
    {
      var n: Option<nat> := fs.Transfer(src, off, tmp, bufsize, Within(Range));
      if n.None? { return false; }
      if n.value == 0 { break; }
      off := off + n.value;
    }
    assert bufsize != 0 ==> s[..off] == s;
  }

  /** The `sendfile` attempt: `remaining` starts at the size of the source. */
  method TrySendfile(fs: FileSystem, src: Path, tmp: Path) returns (copied: bool)
    requires tmp in fs.files && src != tmp
    modifies fs
    ensures OnlyTemp(old(fs.files), fs.files, tmp)
    ensures fs.raised == old(fs.raised) + if copied then {} else {Within(Send)}
    ensures copied ==> src in old(fs.files) && fs.files[tmp] == old(fs.files)[src]
  {
    copied := fs.OpenBoth(src, tmp, Within(Send));
    if !copied { return; }
    ghost var s: Content := old(fs.files)[src];
    var offset: nat, remaining: nat := 0, |fs.files[src]|;
    while remaining > 0
      invariant OnlyTemp(old(fs.files), fs.files, tmp) && fs.raised == old(fs.raised)
      invariant src in old(fs.files) && src in fs.files && fs.files[src] == s
      invariant offset + remaining == |s| && fs.files[tmp] == s[..offset]
    {
      var sent: Option<nat> := fs.Transfer(src, offset, tmp, remaining, Within(Send));
      if sent.None? { return false; }
      if sent.value == 0 { break; }
      offset, remaining := offset + sent.value, remaining - sent.value;
    }
    assert s[..offset] == s;
  }

  /** `_copyfileobj_large`; false when an open, a read or a write raises. A
      buffer size of -1 reads to the end, any other negative one raises. */
  method Stream(fs: FileSystem, src: Path, tmp: Path, bufsize: int) returns (copied: bool)
    requires tmp in fs.files && src != tmp
    modifies fs
    ensures OnlyTemp(old(fs.files), fs.files, tmp)
    ensures fs.raised == old(fs.raised) + if copied then {} else {Within(Streaming)}
    ensures copied ==> src in old(fs.files)
    ensures copied && bufsize != 0 ==> fs.files[tmp] == old(fs.files)[src]
  {
    copied := fs.OpenBoth(src, tmp, Within(Streaming));
    if !copied { return; }
    ghost var s: Content := old(fs.files)[src];
    var off: nat := 0;
    while true
      invariant OnlyTemp(old(fs.files), fs.files, tmp) && fs.raised == old(fs.raised)
      invariant src in old(fs.files) && src in fs.files && fs.files[src] == s
      invariant off <= |s| && fs.files[tmp] == s[..off]
      decreases |s| - off
    {
      var count := if bufsize == -1 then |fs.files[src]| else bufsize;
      var n: Option<nat> := fs.Transfer(src, off, tmp, count, Within(Streaming));
      if n.None? { return false; }
      if n.value == 0 { break; }
      off := off + n.value;
    }
    assert bufsize != 0 ==> s[..off] == s;
  }

  /** A method that is not there, or in which a call has raised. */
  ghost predicate Gone(available: bool, m: Method, raised: set<Part>) { available ==> Within(m) in raised }

  /** A copy succeeds exactly if the temporary file can be made, some method is there
      in which nothing raises, and the destination can be replaced. */
  ghost predicate Succeeds(o: Settings, raised: set<Part>) {
    && Temporary !in raised && Replacement !in raised
    && !(Gone(o.hasCopyFileRange, Range, raised) && Gone(o.hasSendfile, Send, raised)
         && Gone(o.reflink, Reflink, raised) && Gone(o.fallback, Streaming, raised))
  }

  /** A method is used only if those before it are gone, and replacing comes last. */
  ghost predicate InOrder(o: Settings, raised: set<Part>) {
    && (Within(Range) in raised ==> o.hasCopyFileRange)
    && (Within(Send) in raised ==> o.hasSendfile && Gone(o.hasCopyFileRange, Range, raised))
    && (Within(Reflink) in raised ==>
          o.reflink && Gone(o.hasCopyFileRange, Range, raised) && Gone(o.hasSendfile, Send, raised))
    && (Within(Streaming) in raised ==>
          o.fallback && Gone(o.hasCopyFileRange, Range, raised) && Gone(o.hasSendfile, Send, raised)
          && Gone(o.reflink, Reflink, raised))
  }

  /** The chain of methods in `_do_copy`. */
  method TransferAll(fs: FileSystem, src: Path, tmp: Path, o: Settings) returns (copied: bool)
    requires tmp in fs.files && src != tmp && fs.raised == {}
    modifies fs
    ensures OnlyTemp(old(fs.files), fs.files, tmp)
    ensures copied && Sound(o) ==> src in old(fs.files) && fs.files[tmp] == old(fs.files)[src]
    ensures InOrder(o, fs.raised) && (copied <==> Succeeds(o, fs.raised))
  {
    ghost var before := old(fs.files);
    copied := false;
    if o.hasCopyFileRange {
      copied := TryCopyFileRange(fs, src, tmp, o.bufsize);
    }
    SourceKept(before, fs.files, tmp, src);
    if !copied && o.hasSendfile {
      copied := TrySendfile(fs, src, tmp);
    }
    SourceKept(before, fs.files, tmp, src);
    if !copied && o.reflink {
      copied := fs.Cp(src, tmp);
    }
    SourceKept(before, fs.files, tmp, src);
    if !copied && o.fallback {
      copied := Stream(fs, src, tmp, o.bufsize);
    }
  }

  /** `_do_copy`. It reports success and failure instead of raising. */
  method DoCopy(fs: FileSystem, src: Path, dst: Path, o: Settings) returns (ok: bool)
    requires src.Named? && dst.Named?
    modifies fs
    ensures ok && src == dst ==> fs.files == old(fs.files)
    ensures ok && src != dst && Sound(o) ==>
              src in old(fs.files) && fs.files == old(fs.files)[dst := old(fs.files)[src]]
    ensures !ok ==> forall p: Path :: p.Named? || p in old(fs.files) ==>
                      (p in fs.files <==> p in old(fs.files)) && (p in fs.files ==> fs.files[p] == old(fs.files)[p])
    ensures src == dst ==> ok
    ensures src != dst ==> InOrder(o, fs.raised) && (ok <==> Succeeds(o, fs.raised))
  {
    if src == dst { return true; }
    var made: Option<Path> := fs.MakeTemp();
    if made.None? { return false; }
    var tmp := made.value;
    ghost var before := old(fs.files);
    assert fs.files - {tmp} == before;
    var copied := TransferAll(fs, src, tmp, o);
    assert fs.files - {tmp} == before;
    if copied {
      ok := fs.Replace(tmp, dst);
    } else {
      ok := false;
    }
    if !ok {
      fs.Remove(tmp);
      Untouched(before, fs.files, tmp);
    }
  }

  lemma SourceKept(before: Files, after: Files, tmp: Path, src: Path)
    requires after - {tmp} == before - {tmp} && src != tmp
    ensures src in after <==> src in before
    ensures src in after ==> after[src] == before[src]
  {
    assert src in after - {tmp} <==> src in after;
    assert src in before - {tmp} <==> src in before;
  }

  lemma Untouched(before: Files, after: Files, tmp: Path)
    requires tmp.Temp? && tmp !in before && after - {tmp} == before
    ensures forall p: Path :: p.Named? || p in before ==>
              (p in after <==> p in before) && (p in after ==> after[p] == before[p])
  {
    forall p: Path | p.Named? || p in before
      ensures (p in after <==> p in before) && (p in after ==> after[p] == before[p])
    {
      assert p in after - {tmp} <==> p in after;
    }
  }
}
