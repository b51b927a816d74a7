/** fast_copy.py, `CopyManager`: copies running in a thread pool. Every task is
    the step machine of `_do_copy`; the steps of all tasks, new submissions and
    one `wait_all` interleave freely. */
module CopyProtocol {
  import opened FastCopy
  import opened Options

  datatype Task = Task(src: Path, dst: Path, opts: Settings)

  datatype Phase =
    | Queued
    | Try(tmp: Path, m: Method)
    | Loop(tmp: Path, m: Method, off: nat)
    | Copied(tmp: Path)
    | Cleaning(tmp: Path)
    | Done
    | Failed

  predicate Live(ph: Phase) { ph.Try? || ph.Loop? || ph.Copied? || ph.Cleaning? }

  function Next(m: Method): Method
    requires m != Streaming
  {
    match m case Range => Send case Send => Reflink case Reflink => Streaming
  }

  predicate Available(o: Settings, m: Method) {
    match m
    case Range => o.hasCopyFileRange
    case Send => o.hasSendfile
    case Reflink => o.reflink
    case Streaming => o.fallback
  }

  /** Where a method leads that is missing or raises. */
  function GiveUp(tmp: Path, m: Method): Phase {
    if m == Streaming then Cleaning(tmp) else Try(tmp, Next(m))
  }

  /** The most bytes one transfer of a loop may move; negative raises. */
  function Most(o: Settings, m: Method, left: nat): int {
    if m == Send || (m == Streaming && o.bufsize == -1) then left else o.bufsize
  }

  /** One step of a task: `fs` and `ph` before, `fs'` and `ph'` after. */
  ghost predicate TaskStep(t: Task, fs: Files, ph: Phase, fs': Files, ph': Phase) {
    match ph
    case Queued =>
      || (t.src == t.dst && fs' == fs && ph' == Done)
      || (t.src != t.dst && fs' == fs && ph' == Failed)
      || (t.src != t.dst && ph'.Try? && ph'.tmp.Temp? && ph'.tmp !in fs && ph'.m == Range && fs' == fs[ph'.tmp := []])
    case Try(tmp, m) =>
      || (fs' == fs && ph' == GiveUp(tmp, m))
      || (m != Reflink && Available(t.opts, m) && t.src in fs && fs' == fs[tmp := []] && ph' == Loop(tmp, m, 0))
      || (m == Reflink && Available(t.opts, m) && t.src in fs && fs' == fs[tmp := fs[t.src]] && ph' == Copied(tmp))
      || (m == Reflink && Available(t.opts, m) && tmp in fs' && fs' == fs[tmp := fs'[tmp]] && ph' == GiveUp(tmp, m))
    case Loop(tmp, m, off) =>
      || (fs' == fs && ph' == GiveUp(tmp, m))
      || LoopStep(t, fs, tmp, m, off, fs', ph')
    case Copied(tmp) =>
      || (fs' == fs && ph' == Cleaning(tmp))
      || (tmp in fs && fs' == (fs - {tmp})[t.dst := fs[tmp]] && ph' == Done)
    case Cleaning(tmp) =>
      (fs' == fs || fs' == fs - {tmp}) && ph' == Failed
    case _ => false
  }

  /** One successful transfer: part of what is left, nothing only at the end of
      the source or when nothing was asked for; nothing ends the loop. */
  ghost predicate LoopStep(t: Task, fs: Files, tmp: Path, m: Method, off: nat, fs': Files, ph': Phase) {
    && t.src in fs && tmp in fs && off <= |fs[t.src]|
    && var s, left := fs[t.src], |fs[t.src]| - off;
       var most := Most(t.opts, m, left);
       && most >= 0
       && if left == 0 || most == 0 then fs' == fs && ph' == Copied(tmp)
          else && ph'.Loop? && ph'.tmp == tmp && ph'.m == m
               && off < ph'.off <= off + (if most < left then most else left)
               && fs' == fs[tmp := fs[tmp] + s[off..ph'.off]]
  }

  /** `wait_all`: first waits for the futures it saw, then takes the results of
      all futures one after the other. */
  datatype Waiter = Idle | Collecting(n: nat) | Checking(i: nat) | Returned | Raised

  datatype Sys = Sys(fs: Files, tasks: seq<Task>, phases: seq<Phase>, waiter: Waiter)

  ghost predicate Start(s: Sys) {
    s.tasks == [] && s.phases == [] && s.waiter == Idle
  }

  ghost predicate TaskMoves(s: Sys, s': Sys, k: nat) {
    && k < |s.tasks| == |s.phases| == |s'.phases|
    && TaskStep(s.tasks[k], s.fs, s.phases[k], s'.fs, s'.phases[k])
    && s' == s.(fs := s'.fs, phases := s.phases[k := s'.phases[k]])
  }

  ghost predicate Submits(s: Sys, s': Sys) {
    && |s'.tasks| == |s.tasks| + 1
    && s' == s.(tasks := s.tasks + [s'.tasks[|s.tasks|]], phases := s.phases + [Queued])
    && s'.tasks[|s.tasks|].src.Named? && s'.tasks[|s.tasks|].dst.Named?
  }

  predicate Finished(ph: Phase) { ph == Done || ph == Failed }

  ghost predicate WaiterMoves(s: Sys, s': Sys) {
    && s' == s.(waiter := s'.waiter)
    && match s.waiter
       case Idle => s'.waiter == Collecting(|s.tasks|)
       case Collecting(n) =>
         || s'.waiter == Raised // the timeout of as_completed
         || ((forall i :: 0 <= i < n && i < |s.phases| ==> Finished(s.phases[i])) && s'.waiter == Checking(0))
       case Checking(i) =>
         if i < |s.phases| then
           || (s.phases[i] == Done && s'.waiter == Checking(i + 1))
           || (s.phases[i] == Failed && s'.waiter == Raised)
         else s'.waiter == Returned
       case Returned => s'.waiter == Idle
       case Raised => s'.waiter == Idle
  }

  ghost predicate Step(s: Sys, s': Sys) {
    Submits(s, s') || WaiterMoves(s, s') || exists k: nat :: TaskMoves(s, s', k)
  }

  ghost predicate Run(tr: seq<Sys>) {
    && tr != [] && Start(tr[0])
    && forall i :: 0 <= i < |tr| - 1 ==> Step(tr[i], tr[i + 1])
  }

  /** Submitted copies do not interfere: destinations are pairwise distinct and
      none of them is read. A copy of a file to itself does nothing and is exempt. */
  ghost predicate Compatible(ts: seq<Task>) {
    && (forall t <- ts :: t.src.Named? && t.dst.Named? && Sound(t.opts))
    && forall i, j :: 0 <= i < |ts| && 0 <= j < |ts| && i != j
                      && ts[i].src != ts[i].dst && ts[j].src != ts[j].dst ==>
         ts[i].dst != ts[j].dst && ts[i].dst != ts[j].src
  }

  // ----- the specification: one copy after the other -----

  /** The tasks run to the end one by one, in the order of submission, each
      successful one copying what its source holds at that time. */
  function OneByOne(fs: Files, ts: seq<Task>, phases: seq<Phase>): Files
    requires |ts| == |phases|
  {
    if ts == [] then fs
    else
      var n := |ts| - 1;
      var before := OneByOne(fs, ts[..n], phases[..n]);
      if phases[n] == Done && ts[n].src in before then before[ts[n].dst := before[ts[n].src]] else before
  }

  /** The last index of a finished copy to `p`, as a witness-free definition. */
  ghost predicate Written(ts: seq<Task>, phases: seq<Phase>, p: Path, k: int) {
    0 <= k < |ts| && k < |phases| && ts[k].dst == p && ts[k].src != ts[k].dst && phases[k] == Done
  }

  /** What a path holds, told from the start of the run alone. */
  ghost predicate Holds(fs0: Files, fs: Files, ts: seq<Task>, phases: seq<Phase>, p: Path) {
    && (forall k :: Written(ts, phases, p, k) ==>
          ts[k].src in fs0 && p in fs && fs[p] == fs0[ts[k].src])
    && ((forall k :: !Written(ts, phases, p, k)) ==>
          (p in fs <==> p in fs0) && (p in fs ==> fs[p] == fs0[p]))
  }

  lemma CompatiblePrefix(ts: seq<Task>, n: nat)
    requires Compatible(ts) && n <= |ts|
    ensures Compatible(ts[..n])
  {
    assert forall t <- ts[..n] :: t in ts;
  }

  /** A source is never written. */
  lemma SourceUnwritten(ts: seq<Task>, phases: seq<Phase>, i: nat, k: int)
    requires Compatible(ts) && i < |ts| && ts[i].src != ts[i].dst
    ensures !Written(ts, phases, ts[i].src, k)
  {
    assert 0 <= k < |ts| && k != i && ts[k].src != ts[k].dst ==> ts[k].dst != ts[i].src;
  }

  /** The sequential run leaves in every path what `Holds` says. */
  lemma {:induction false} OneByOneHolds(fs0: Files, ts: seq<Task>, phases: seq<Phase>, p: Path)
    requires |ts| == |phases| && Compatible(ts)
    requires forall k :: 0 <= k < |ts| && phases[k] == Done && ts[k].src != ts[k].dst ==> ts[k].src in fs0
    ensures Holds(fs0, OneByOne(fs0, ts, phases), ts, phases, p)
    decreases |ts|
  {
    if ts != [] {
      var n := |ts| - 1;
      var ts0, ph0 := ts[..n], phases[..n];
      CompatiblePrefix(ts, n);
      OneByOneHolds(fs0, ts0, ph0, p);
      OneByOneHolds(fs0, ts0, ph0, ts[n].src);
      var before := OneByOne(fs0, ts0, ph0);
      assert forall q, k :: Written(ts0, ph0, q, k) ==> Written(ts, phases, q, k);
      assert forall q, k :: Written(ts, phases, q, k) && k != n ==> Written(ts0, ph0, q, k);
      if ts[n].src != ts[n].dst {
        forall k ensures !Written(ts0, ph0, ts[n].src, k) {
          SourceUnwritten(ts, phases, n, k);
        }
        assert phases[n] == Done ==> Written(ts, phases, ts[n].dst, n);
      } else {
        assert !Written(ts, phases, p, n);
        if ts[n].src in before { assert before[ts[n].dst := before[ts[n].src]] == before; }
      }
    }
  }

  // ----- the invariant of the interleaving -----

  /** A task holds its own temporary file, filled as far as its phase says. */
  ghost predicate TaskOk(fs0: Files, s: Sys, k: nat)
    requires k < |s.tasks| == |s.phases|
  {
    var t, ph := s.tasks[k], s.phases[k];
    && (Live(ph) ==> ph.tmp.Temp? && ph.tmp in s.fs && t.src != t.dst && ph.tmp !in fs0)
    && (ph.Loop? ==> ph.m != Reflink && Available(t.opts, ph.m) && t.src in fs0 && ph.off <= |fs0[t.src]|
                     && s.fs[ph.tmp] == fs0[t.src][..ph.off])
    && (ph.Copied? ==> t.src in fs0 && s.fs[ph.tmp] == fs0[t.src])
    && (ph == Done && t.src != t.dst ==> t.src in fs0)
  }

  /** Temporary files that are not from before the run belong to a live task or
      were left behind by a failed one. */
  ghost predicate NoStrayTemp(fs0: Files, s: Sys)
    requires |s.tasks| == |s.phases|
  {
    forall p: Path :: p.Temp? && p in s.fs && p !in fs0 ==>
      exists k :: 0 <= k < |s.phases| && (s.phases[k] == Failed || (Live(s.phases[k]) && s.phases[k].tmp == p))
  }

  ghost predicate Inv(fs0: Files, s: Sys) {
    && |s.tasks| == |s.phases|
    && (forall k :: 0 <= k < |s.tasks| ==> TaskOk(fs0, s, k))
    && (forall i, j :: 0 <= i < j < |s.phases| && Live(s.phases[i]) && Live(s.phases[j]) ==>
          s.phases[i].tmp != s.phases[j].tmp)
    && (forall p: Path :: p.Named? || p in fs0 ==> Holds(fs0, s.fs, s.tasks, s.phases, p))
    && NoStrayTemp(fs0, s)
    && (s.waiter.Checking? ==> s.waiter.i <= |s.phases| && forall i :: 0 <= i < s.waiter.i ==> s.phases[i] == Done)
  }

  /** What the step of one task may do to the files. */
  ghost predicate FilesChange(t: Task, fs: Files, ph: Phase, fs': Files, ph': Phase) {
    forall p: Path ::
      || ((p in fs' <==> p in fs) && (p in fs ==> fs'[p] == fs[p]))
      || (Live(ph) && p == ph.tmp)
      || (Live(ph') && p == ph'.tmp)
      || (p == t.dst && ph.Copied? && ph' == Done)
  }

  lemma StepFiles(t: Task, fs: Files, ph: Phase, fs': Files, ph': Phase)
    requires TaskStep(t, fs, ph, fs', ph')
    ensures FilesChange(t, fs, ph, fs', ph')
    ensures Live(ph) && Live(ph') ==> ph'.tmp == ph.tmp
    ensures !Live(ph) && Live(ph') ==> ph == Queued && ph'.tmp.Temp? && ph'.tmp !in fs
    ensures !Finished(ph)
    ensures ph' == Done ==> (ph == Queued && t.src == t.dst && fs' == fs)
                            || (ph.Copied? && ph.tmp in fs && fs' == (fs - {ph.tmp})[t.dst := fs[ph.tmp]])
  {}

  /** A task that moves stays in order, if its source still is what it was. */
  lemma MoverOk(fs0: Files, s: Sys, s': Sys, k: nat)
    requires |s.tasks| == |s.phases| && TaskMoves(s, s', k) && TaskOk(fs0, s, k)
    requires var t := s.tasks[k];
             t.src.Named? && t.dst.Named? && Sound(t.opts)
             && (t.src != t.dst ==> (t.src in s.fs <==> t.src in fs0) && (t.src in fs0 ==> s.fs[t.src] == fs0[t.src]))
    requires forall p: Path :: p.Temp? && p in fs0 ==> p in s.fs
    ensures TaskOk(fs0, s', k)
  {
    var t, ph, ph' := s.tasks[k], s.phases[k], s'.phases[k];
    if ph.Loop? && LoopStep(t, s.fs, ph.tmp, ph.m, ph.off, s'.fs, ph') {
      var c := fs0[t.src];
      if ph'.Loop? {
        assert c[..ph'.off] == c[..ph.off] + c[ph.off..ph'.off];
      } else {
        assert c[..|c|] == c;
      }
    }
  }

  /** Every other task is not touched. */
  lemma OthersOk(fs0: Files, s: Sys, s': Sys, k: nat, j: nat)
    requires Inv(fs0, s) && TaskMoves(s, s', k) && j < |s.tasks| && j != k
    requires s.tasks[k].dst.Named?
    ensures TaskOk(fs0, s', j)
    ensures Live(s.phases[j]) && Live(s'.phases[k]) ==> s'.phases[k].tmp != s.phases[j].tmp
  {
    StepFiles(s.tasks[k], s.fs, s.phases[k], s'.fs, s'.phases[k]);
    assert TaskOk(fs0, s, j) && TaskOk(fs0, s, k);
    if Live(s.phases[j]) {
      var p := s.phases[j].tmp;
      assert Live(s.phases[k]) ==> s.phases[k].tmp != p;
    }
  }

  lemma WrittenStep(s: Sys, s': Sys, k: nat, p: Path, j: int)
    requires |s.tasks| == |s.phases| && TaskMoves(s, s', k) && !Finished(s.phases[k])
    ensures Written(s'.tasks, s'.phases, p, j)
       <==> Written(s.tasks, s.phases, p, j)
            || (j == k && s'.phases[k] == Done && s.tasks[k].dst == p && s.tasks[k].src != p)
  {}

  lemma HoldsStep(fs0: Files, s: Sys, s': Sys, k: nat, p: Path)
    requires Inv(fs0, s) && Compatible(s.tasks) && TaskMoves(s, s', k)
    requires p.Named? || p in fs0
    ensures Holds(fs0, s'.fs, s'.tasks, s'.phases, p)
  {
    var t, ph, ph' := s.tasks[k], s.phases[k], s'.phases[k];
    assert t in s.tasks;
    StepFiles(t, s.fs, ph, s'.fs, ph');
    assert TaskOk(fs0, s, k);
    forall j ensures Written(s'.tasks, s'.phases, p, j)
                <==> Written(s.tasks, s.phases, p, j) || (j == k && ph' == Done && t.dst == p && t.src != p) {
      WrittenStep(s, s', k, p, j);
    }
    assert Holds(fs0, s.fs, s.tasks, s.phases, p);
    if p.Temp? {
      assert forall j :: 0 <= j < |s.tasks| ==> s.tasks[j] in s.tasks;
      assert forall j :: !Written(s.tasks, s.phases, p, j);
    }
    if ph' == Done && t.dst == p && t.src != p {
      assert s'.fs[p] == fs0[t.src];
      assert forall j :: 0 <= j < |s.tasks| && j != k && s.tasks[j].src != s.tasks[j].dst ==> s.tasks[j].dst != p;
    }
  }

  lemma StrayStep(fs0: Files, s: Sys, s': Sys, k: nat)
    requires Inv(fs0, s) && Compatible(s.tasks) && TaskMoves(s, s', k)
    ensures NoStrayTemp(fs0, s')
  {
    var t, ph, ph' := s.tasks[k], s.phases[k], s'.phases[k];
    assert t in s.tasks;
    StepFiles(t, s.fs, ph, s'.fs, ph');
    forall p: Path | p.Temp? && p in s'.fs && p !in fs0
      ensures exists j :: 0 <= j < |s'.phases|
                && (s'.phases[j] == Failed || (Live(s'.phases[j]) && s'.phases[j].tmp == p))
    {
      if Live(ph') && ph'.tmp == p {
      } else if p in s.fs {
        var j :| 0 <= j < |s.phases| && (s.phases[j] == Failed || (Live(s.phases[j]) && s.phases[j].tmp == p));
        if j == k {
          assert ph' == Failed || ph' == Done;
          assert ph' == Done ==> ph.Copied? && p !in s'.fs;
          assert s'.phases[k] == Failed;
        } else {
          assert s'.phases[j] == s.phases[j];
        }
      }
    }
  }

  lemma TaskMoveInv(fs0: Files, s: Sys, s': Sys, k: nat)
    requires Inv(fs0, s) && Compatible(s.tasks) && TaskMoves(s, s', k)
    ensures Inv(fs0, s')
  {
    var t := s.tasks[k];
    assert t in s.tasks;
    assert Holds(fs0, s.fs, s.tasks, s.phases, t.src);
    if t.src != t.dst {
      forall j ensures !Written(s.tasks, s.phases, t.src, j) { SourceUnwritten(s.tasks, s.phases, k, j); }
    }
    forall p: Path | p.Temp? && p in fs0 ensures p in s.fs {
      assert Holds(fs0, s.fs, s.tasks, s.phases, p);
      forall j ensures !Written(s.tasks, s.phases, p, j) {
        if 0 <= j < |s.tasks| { assert s.tasks[j] in s.tasks; }
      }
    }
    MoverOk(fs0, s, s', k);
    forall j | 0 <= j < |s.tasks| && j != k
      ensures TaskOk(fs0, s', j)
      ensures Live(s.phases[j]) && Live(s'.phases[k]) ==> s'.phases[k].tmp != s.phases[j].tmp
    {
      OthersOk(fs0, s, s', k, j);
    }
    forall p: Path | p.Named? || p in fs0 ensures Holds(fs0, s'.fs, s'.tasks, s'.phases, p) {
      HoldsStep(fs0, s, s', k, p);
    }
    StrayStep(fs0, s, s', k);
    StepFiles(t, s.fs, s.phases[k], s'.fs, s'.phases[k]);
  }

  lemma SubmitInv(fs0: Files, s: Sys, s': Sys)
    requires Inv(fs0, s) && Submits(s, s')
    ensures Inv(fs0, s')
  {
    forall k | 0 <= k < |s'.tasks| ensures TaskOk(fs0, s', k) {
      if k < |s.tasks| { assert TaskOk(fs0, s, k); }
    }
    forall p: Path | p.Named? || p in fs0 ensures Holds(fs0, s'.fs, s'.tasks, s'.phases, p) {
      assert Holds(fs0, s.fs, s.tasks, s.phases, p);
      assert forall k :: Written(s'.tasks, s'.phases, p, k) <==> Written(s.tasks, s.phases, p, k);
    }
    forall p: Path | p.Temp? && p in s'.fs && p !in fs0
      ensures exists j :: 0 <= j < |s'.phases|
                && (s'.phases[j] == Failed || (Live(s'.phases[j]) && s'.phases[j].tmp == p))
    {
      var j :| 0 <= j < |s.phases| && (s.phases[j] == Failed || (Live(s.phases[j]) && s.phases[j].tmp == p));
      assert s'.phases[j] == s.phases[j];
    }
  }

  lemma StepInv(fs0: Files, s: Sys, s': Sys)
    requires Inv(fs0, s) && Compatible(s.tasks) && Step(s, s')
    ensures Inv(fs0, s')
  {
    if Submits(s, s') {
      SubmitInv(fs0, s, s');
    } else if WaiterMoves(s, s') {
      forall k | 0 <= k < |s.tasks| ensures TaskOk(fs0, s', k) { assert TaskOk(fs0, s, k); }
      forall p: Path | p.Named? || p in fs0 ensures Holds(fs0, s'.fs, s'.tasks, s'.phases, p) {
        assert Holds(fs0, s.fs, s.tasks, s.phases, p);
      }
    } else {
      var k: nat :| TaskMoves(s, s', k);
      TaskMoveInv(fs0, s, s', k);
    }
  }

  lemma StepOf(tr: seq<Sys>, i: nat)
    requires Run(tr) && i + 1 < |tr|
    ensures Step(tr[i], tr[i + 1])
  {
    hide Step, Start;
  }

  lemma {:induction false} TasksGrow(tr: seq<Sys>, i: nat, j: nat)
    requires Run(tr) && i <= j < |tr|
    ensures tr[i].tasks <= tr[j].tasks
    decreases j - i
  {
    if i < j {
      StepOf(tr, i);
      hide Run;
      TasksGrow(tr, i + 1, j);
    }
  }

  lemma CompatibleAt(tr: seq<Sys>, i: nat)
    requires Run(tr) && i < |tr| && Compatible(tr[|tr| - 1].tasks)
    ensures Compatible(tr[i].tasks)
  {
    var all := tr[|tr| - 1].tasks;
    TasksGrow(tr, i, |tr| - 1);
    hide Run, Compatible;
    assert tr[i].tasks == all[..|tr[i].tasks|];
    CompatiblePrefix(all, |tr[i].tasks|);
  }

  lemma StartInv(s: Sys)
    requires Start(s)
    ensures Inv(s.fs, s)
  {}

  lemma {:induction false} RunInv(tr: seq<Sys>, i: nat)
    requires Run(tr) && i < |tr| && Compatible(tr[|tr| - 1].tasks)
    ensures Inv(tr[0].fs, tr[i])
    decreases i
  {
    if i == 0 {
      StartInv(tr[0]);
    } else {
      hide Run, Step, Inv, Compatible;
      StepOf(tr, i - 1);
      RunInv(tr, i - 1);
      CompatibleAt(tr, i - 1);
      StepInv(tr[0].fs, tr[i - 1], tr[i]);
    }
  }

  // ----- results -----

  /** Confluence: at every point of every interleaving the files that are not
      temporary are those of the sequential run of exactly the copies that have
      succeeded so far. */
  lemma Confluence(tr: seq<Sys>, i: nat, p: Path)
    requires Run(tr) && i < |tr| && Compatible(tr[|tr| - 1].tasks) && (p.Named? || p in tr[0].fs)
    ensures |tr[i].tasks| == |tr[i].phases|
    ensures var s, seqRun := tr[i], OneByOne(tr[0].fs, tr[i].tasks, tr[i].phases);
            (p in s.fs <==> p in seqRun) && (p in s.fs ==> s.fs[p] == seqRun[p])
  {
    var fs0, s := tr[0].fs, tr[i];
    RunInv(tr, i);
    CompatibleAt(tr, i);
    forall k | 0 <= k < |s.tasks| && s.phases[k] == Done && s.tasks[k].src != s.tasks[k].dst
      ensures s.tasks[k].src in fs0
    {
      assert TaskOk(fs0, s, k);
    }
    OneByOneHolds(fs0, s.tasks, s.phases, p);
    assert Holds(fs0, s.fs, s.tasks, s.phases, p);
    if k :| Written(s.tasks, s.phases, p, k) {
      assert p in s.fs;
    }
  }

  /** At every point a destination holds its whole old or its whole new content. */
  lemma Atomicity(tr: seq<Sys>, i: nat, k: nat)
    requires Run(tr) && i < |tr| && Compatible(tr[|tr| - 1].tasks) && k < |tr[i].tasks|
    requires tr[i].tasks[k].src != tr[i].tasks[k].dst
    ensures |tr[i].tasks| == |tr[i].phases|
    ensures var fs0, s, t := tr[0].fs, tr[i], tr[i].tasks[k];
            if s.phases[k] == Done then t.src in fs0 && t.dst in s.fs && s.fs[t.dst] == fs0[t.src]
            else (t.dst in s.fs <==> t.dst in fs0) && (t.dst in s.fs ==> s.fs[t.dst] == fs0[t.dst])
  {
    var fs0, s := tr[0].fs, tr[i];
    RunInv(tr, i);
    TasksGrow(tr, i, |tr| - 1);
    var all := tr[|tr| - 1].tasks;
    var t := s.tasks[k];
    assert t == all[k] && t in all;
    assert Holds(fs0, s.fs, s.tasks, s.phases, t.dst);
    forall j | Written(s.tasks, s.phases, t.dst, j) ensures j == k {
      assert all[j] == s.tasks[j];
    }
    if s.phases[k] == Done { assert Written(s.tasks, s.phases, t.dst, k); }
  }

  lemma {:induction false} AllDoneOnReturn(tr: seq<Sys>, i: nat)
    requires Run(tr) && 0 < i < |tr| && tr[i].waiter == Returned && tr[i - 1].waiter != Returned
    requires Inv(tr[0].fs, tr[i - 1])
    ensures |tr[i].tasks| == |tr[i].phases|
    ensures forall k :: 0 <= k < |tr[i].phases| ==> tr[i].phases[k] == Done
  {
    StepOf(tr, i - 1);
    hide Run;
  }

  /** When `wait_all` returns, every copy ever submitted has succeeded and the
      file system, temporary files included, is the one the sequential run of
      all of them produces. */
  lemma WaitAllReturns(tr: seq<Sys>, i: nat)
    requires Run(tr) && 0 < i < |tr| && Compatible(tr[|tr| - 1].tasks)
    requires tr[i].waiter == Returned && tr[i - 1].waiter != Returned
    ensures |tr[i].tasks| == |tr[i].phases|
    ensures forall k :: 0 <= k < |tr[i].phases| ==> tr[i].phases[k] == Done
    ensures tr[i].fs == OneByOne(tr[0].fs, tr[i].tasks, tr[i].phases)
  {
    var fs0, s := tr[0].fs, tr[i];
    RunInv(tr, i - 1);
    AllDoneOnReturn(tr, i);
    var end := OneByOne(fs0, s.tasks, s.phases);
    hide Inv, Run, Compatible, OneByOne;
    forall p: Path ensures (p in s.fs <==> p in end) && (p in s.fs ==> s.fs[p] == end[p]) {
      if p.Named? || p in fs0 {
        Confluence(tr, i, p);
      } else {
        NoTempLeft(tr, i, p);
      }
    }
    assert s.fs.Keys == end.Keys;
  }

  lemma NoTempLeft(tr: seq<Sys>, i: nat, p: Path)
    requires Run(tr) && i < |tr| && Compatible(tr[|tr| - 1].tasks) && p.Temp? && p !in tr[0].fs
    requires |tr[i].tasks| == |tr[i].phases| && forall k :: 0 <= k < |tr[i].phases| ==> tr[i].phases[k] == Done
    ensures p !in tr[i].fs && p !in OneByOne(tr[0].fs, tr[i].tasks, tr[i].phases)
  {
    RunInv(tr, i);
    assert NoStrayTemp(tr[0].fs, tr[i]);
    CompatibleAt(tr, i);
    hide Inv, Run, Compatible, OneByOne;
    OneByOneTemps(tr[0].fs, tr[i].tasks, tr[i].phases, p);
  }

  lemma {:induction false} OneByOneTemps(fs0: Files, ts: seq<Task>, phases: seq<Phase>, p: Path)
    requires |ts| == |phases| && Compatible(ts) && p.Temp?
    ensures p in OneByOne(fs0, ts, phases) <==> p in fs0
    decreases |ts|
  {
    if ts != [] {
      var n := |ts| - 1;
      CompatiblePrefix(ts, n);
      OneByOneTemps(fs0, ts[..n], phases[..n], p);
      assert ts[n] in ts;
    }
  }

  // ----- without a buffer -----

  /** The last state of a run of one task that ended well with a destination
      that is not the source. */
  ghost predicate Truncated(tr: seq<Sys>, o: Settings) {
    && Run(tr) && |tr[|tr| - 1].tasks| == 1 == |tr[|tr| - 1].phases|
    && var s := tr[|tr| - 1];
       && s.tasks[0].opts == o && s.tasks[0].src != s.tasks[0].dst && s.phases[0] == Done
       && s.tasks[0].src in tr[0].fs && s.tasks[0].dst in s.fs
       && s.fs[s.tasks[0].dst] != tr[0].fs[s.tasks[0].src]
  }

  lemma Extend(tr: seq<Sys>, s': Sys)
    requires Run(tr) && Step(tr[|tr| - 1], s')
    ensures Run(tr + [s'])
  {
    var next := tr + [s'];
    forall i | 0 <= i < |next| - 1 ensures Step(next[i], next[i + 1]) {
      if i < |tr| - 1 { assert Step(tr[i], tr[i + 1]); }
    }
  }

  /** Let the only task of a run make one more step. */
  lemma Move(tr: seq<Sys>, fs': Files, ph': Phase) returns (next: seq<Sys>)
    requires Run(tr) && |tr[|tr| - 1].tasks| == 1 == |tr[|tr| - 1].phases|
    requires var s := tr[|tr| - 1]; TaskStep(s.tasks[0], s.fs, s.phases[0], fs', ph')
    ensures Run(next) && next[0] == tr[0]
    ensures next[|next| - 1] == tr[|tr| - 1].(fs := fs', phases := [ph'])
  {
    var s := tr[|tr| - 1];
    var s' := s.(fs := fs', phases := [ph']);
    assert s.phases[0 := ph'] == [ph'];
    assert TaskMoves(s, s', 0);
    Extend(tr, s');
    next := tr + [s'];
  }

  /** The only task of a run is about to try a method, with an empty temporary file. */
  ghost predicate Trying(tr: seq<Sys>, t: Task, fs: Files, m: Method) {
    && Run(tr) && tr[0].fs == fs
    && tr[|tr| - 1] == Sys(fs[Temp(0) := []], [t], [Try(Temp(0), m)], Idle)
  }

  lemma OpenTemp(t: Task, fs: Files) returns (tr: seq<Sys>)
    requires t.src.Named? && t.dst.Named? && t.src != t.dst && Temp(0) !in fs
    ensures Trying(tr, t, fs, Range)
  {
    var s0, s1 := Sys(fs, [], [], Idle), Sys(fs, [t], [Queued], Idle);
    assert Submits(s0, s1);
    hide Submits, WaiterMoves, TaskMoves, Compatible;
    Extend([s0], s1);
    tr := Move([s0] + [s1], fs[Temp(0) := []], Try(Temp(0), Range));
  }

  lemma SkipMethod(tr: seq<Sys>, t: Task, fs: Files, m: Method) returns (next: seq<Sys>)
    requires Trying(tr, t, fs, m) && m != Streaming
    ensures Trying(next, t, fs, Next(m))
  {
    assert tr != [];
    hide Run, Step;
    next := Move(tr, tr[|tr| - 1].fs, Try(Temp(0), Next(m)));
  }

  /** A loop with a buffer of size zero ends at once. */
  lemma EmptyLoop(tr: seq<Sys>, t: Task, fs: Files, m: Method) returns (next: seq<Sys>)
    requires Trying(tr, t, fs, m) && t.src != Temp(0) && t.dst != Temp(0) && t.src in fs
    requires t.opts.bufsize == 0 && Available(t.opts, m) && (m == Range || m == Streaming)
    ensures Run(next) && next[0].fs == fs
    ensures next[|next| - 1] == Sys((fs[Temp(0) := []] - {Temp(0)})[t.dst := []], [t], [Done], Idle)
  {
    hide Run, Step;
    var withTmp := fs[Temp(0) := []];
    assert withTmp[Temp(0) := []] == withTmp;
    next := Move(tr, withTmp, Loop(Temp(0), m, 0));
    next := Move(next, withTmp, Copied(Temp(0)));
    next := Move(next, (withTmp - {Temp(0)})[t.dst := []], Done);
  }

  // ----- every method can copy -----

  /** The method is there, and its loop, if it has one, makes progress. */
  predicate Usable(o: Settings, m: Method) {
    Available(o, m) && (m == Range ==> o.bufsize > 0) && (m == Streaming ==> o.bufsize > 0 || o.bufsize == -1)
  }

  /** The only task is in the loop of a method, with the first `off` bytes copied. */
  ghost predicate Looping(tr: seq<Sys>, t: Task, fs: Files, m: Method, off: nat)
    requires t.src in fs && off <= |fs[t.src]|
  {
    && Run(tr) && tr[0].fs == fs
    && tr[|tr| - 1] == Sys(fs[Temp(0) := fs[t.src][..off]], [t], [Loop(Temp(0), m, off)], Idle)
  }

  ghost predicate Filled(tr: seq<Sys>, t: Task, fs: Files)
    requires t.src in fs
  {
    && Run(tr) && tr[0].fs == fs
    && tr[|tr| - 1] == Sys(fs[Temp(0) := fs[t.src]], [t], [Copied(Temp(0))], Idle)
  }

  lemma LoopAll(tr: seq<Sys>, t: Task, fs: Files, m: Method, off: nat) returns (next: seq<Sys>)
    requires t.src in fs && off <= |fs[t.src]| && Looping(tr, t, fs, m, off)
    requires t.src != Temp(0) && m != Reflink && Usable(t.opts, m)
    ensures Filled(next, t, fs)
    decreases |fs[t.src]| - off
  {
    hide Run, Step;
    var c := fs[t.src];
    var here := fs[Temp(0) := c[..off]];
    if off == |c| {
      assert c[..off] == c;
      next := Move(tr, here, Copied(Temp(0)));
    } else {
      var most := Most(t.opts, m, |c| - off);
      var off' := if most < |c| - off then off + most else |c|;
      assert c[..off] + c[off..off'] == c[..off'];
      assert here[Temp(0) := c[..off']] == fs[Temp(0) := c[..off']];
      next := Move(tr, fs[Temp(0) := c[..off']], Loop(Temp(0), m, off'));
      next := LoopAll(next, t, fs, m, off');
    }
  }

  lemma FillWith(tr: seq<Sys>, t: Task, fs: Files, m: Method) returns (next: seq<Sys>)
    requires Trying(tr, t, fs, m) && t.src in fs && t.src != Temp(0) && Usable(t.opts, m)
    ensures Filled(next, t, fs)
  {
    hide Run, Step;
    var withTmp := fs[Temp(0) := []];
    if m == Reflink {
      assert withTmp[Temp(0) := fs[t.src]] == fs[Temp(0) := fs[t.src]];
      next := Move(tr, fs[Temp(0) := fs[t.src]], Copied(Temp(0)));
    } else {
      assert withTmp[Temp(0) := []] == withTmp && fs[t.src][..0] == [];
      next := Move(tr, withTmp, Loop(Temp(0), m, 0));
      next := LoopAll(next, t, fs, m, 0);
    }
  }

  /** For each method that is there, whatever the files, there is a run in which it does
      the copy and the destination gets the content of the source. */
  lemma EachMethodCopies(t: Task, fs: Files, m: Method) returns (tr: seq<Sys>)
    requires t.src.Named? && t.dst.Named? && t.src != t.dst && t.src in fs && Temp(0) !in fs && Usable(t.opts, m)
    ensures Run(tr) && tr[0].fs == fs
    ensures tr[|tr| - 1] == Sys(fs[t.dst := fs[t.src]], [t], [Done], Idle)
  {
    tr := OpenTemp(t, fs);
    hide Run, Step, Trying, Filled;
    if m != Range { tr := SkipMethod(tr, t, fs, Range); }
    if m == Reflink || m == Streaming { tr := SkipMethod(tr, t, fs, Send); }
    if m == Streaming { tr := SkipMethod(tr, t, fs, Reflink); }
    tr := FillWith(tr, t, fs, m);
    tr := PutInPlace(tr, t, fs);
  }

  lemma PutInPlace(tr: seq<Sys>, t: Task, fs: Files) returns (next: seq<Sys>)
    requires t.src in fs && Filled(tr, t, fs) && Temp(0) !in fs
    ensures Run(next) && next[0].fs == fs
    ensures next[|next| - 1] == Sys(fs[t.dst := fs[t.src]], [t], [Done], Idle)
  {
    hide Run, Step;
    var filled := fs[Temp(0) := fs[t.src]];
    assert filled - {Temp(0)} == fs;
    next := Move(tr, fs[t.dst := fs[t.src]], Done);
  }

  lemma TruncatingRun(o: Settings) returns (tr: seq<Sys>)
    requires !Sound(o)
    ensures Truncated(tr, o)
  {
    assert Named("a") != Named("b") by { assert "a"[0] != "b"[0]; }
    var t, fs: Files := Task(Named("a"), Named("b"), o), map[Named("a") := [1]];
    tr := OpenTemp(t, fs);
    hide Run, Step, Trying;
    if o.hasCopyFileRange {
      tr := EmptyLoop(tr, t, fs, Range);
    } else {
      tr := SkipMethod(tr, t, fs, Range);
      tr := SkipMethod(tr, t, fs, Send);
      tr := SkipMethod(tr, t, fs, Reflink);
      tr := EmptyLoop(tr, t, fs, Streaming);
    }
  }

  /** Successful copies are complete on all runs exactly when the buffer size is
      not zero or neither of the two loops that use it can run. */
  lemma CompleteExactly(o: Settings)
    ensures Sound(o) <==> forall tr: seq<Sys> :: !Truncated(tr, o)
  {
    if Sound(o) {
      forall tr: seq<Sys> ensures !Truncated(tr, o) {
        var n := |tr| - 1;
        if Run(tr) && |tr[n].tasks| == 1 == |tr[n].phases| && tr[n].tasks[0].opts == o
           && tr[n].tasks[0].src != tr[n].tasks[0].dst {
          TasksNamed(tr, n);
          Atomicity(tr, n, 0);
        }
      }
    } else {
      var tr := TruncatingRun(o);
    }
  }

  lemma {:induction false} TasksNamed(tr: seq<Sys>, i: nat)
    requires Run(tr) && i < |tr|
    ensures forall t <- tr[i].tasks :: t.src.Named? && t.dst.Named?
    decreases i
  {
    if i > 0 {
      TasksNamed(tr, i - 1);
      StepOf(tr, i - 1);
      hide Run;
    }
  }
}
