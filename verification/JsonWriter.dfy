/** json_writer.py: producers put lines into a queue; one background worker
    collects them per file and appends whole batches. */
module JsonWriter {

  datatype File = File(path: string)
  datatype Line = Line(text: string)
  datatype Entry = Entry(file: File, line: Line)

  function Of<T>(m: map<File, seq<T>>, f: File): seq<T> { if f in m then m[f] else [] }

  lemma OfSet<T>(m: map<File, seq<T>>, f: File, v: seq<T>, g: File)
    ensures Of(m[f := v], g) == if g == f then v else Of(m, g)
  {}

  lemma OfRemove<T>(m: map<File, seq<T>>, f: File, g: File)
    ensures Of(m - {f}, g) == if g == f then [] else Of(m, g)
  {}

  function Bit(e: Entry, f: File): seq<Line> { if e.file == f then [e.line] else [] }

  /** The lines meant for one file. */
  function Lines(q: seq<Entry>, f: File): seq<Line> {
    if q == [] then [] else Lines(q[..|q| - 1], f) + Bit(q[|q| - 1], f)
  }

  lemma LinesPut(q: seq<Entry>, e: Entry, f: File)
    ensures Lines(q + [e], f) == Lines(q, f) + Bit(e, f)
  {
    assert (q + [e])[..|q|] == q;
  }

  /** `at` has the places of the entries of a file, all of them and in their order, and
      `lines` has their lines. */
  ghost predicate LinesAt(q: seq<Entry>, f: File, lines: seq<Line>, at: seq<nat>) {
    && |at| == |lines|
    && (forall i, j :: 0 <= i < j < |at| ==> at[i] < at[j])
    && (forall i :: 0 <= i < |at| ==> at[i] < |q| && q[at[i]].file == f && q[at[i]].line == lines[i])
    && forall k :: 0 <= k < |q| && q[k].file == f ==> k in at
  }

  lemma LinesAtNext(q: seq<Entry>, e: Entry, f: File, lines: seq<Line>, at: seq<nat>)
    requires LinesAt(q, f, lines, at)
    ensures e.file == f ==> LinesAt(q + [e], f, lines + [e.line], at + [|q|])
    ensures e.file != f ==> LinesAt(q + [e], f, lines, at)
  {
    var all, to := q + [e], at + [|q|];
    assert forall k :: 0 <= k < |q| ==> all[k] == q[k];
    assert forall k <- at :: k in to;
    assert |q| in to;
  }

  /** The lines meant for a file, told from the entries. */
  lemma {:induction false} LinesExactly(q: seq<Entry>, f: File) returns (at: seq<nat>)
    ensures LinesAt(q, f, Lines(q, f), at)
    decreases |q|
  {
    if q == [] {
      at := [];
    } else {
      var n := |q| - 1;
      assert Lines(q, f) == Lines(q[..n], f) + if q[n].file == f then [q[n].line] else [];
      hide Lines, LinesAt;
      at := LinesExactly(q[..n], f);
      LinesAtNext(q[..n], q[n], f, Lines(q[..n], f), at);
      assert q == q[..n] + [q[n]];
      if q[n].file == f {
        at := at + [n];
      } else {
        assert Lines(q[..n], f) + [] == Lines(q[..n], f);
      }
    }
  }

  lemma {:induction false} LinesGet(q: seq<Entry>, f: File)
    requires q != []
    ensures Lines(q, f) == Bit(q[0], f) + Lines(q[1..], f)
    decreases |q|
  {
    var n := |q| - 1;
    if n > 0 {
      LinesGet(q[..n], f);
      assert q[..n][1..] == q[1..][..n - 1];
    }
  }

  /** A batch is written as soon as it has so many lines; a size below 1 acts as 1. */
  function Cap(size: int): nat { if size > 1 then size else 1 }

  /** Lines that were written together, or lost together. */
  datatype Segment = Segment(lines: seq<Line>, kept: bool)

  /** All lines whose fate is known, in order. */
  function Told(fate: seq<Segment>): seq<Line> {
    if fate == [] then [] else Told(fate[..|fate| - 1]) + fate[|fate| - 1].lines
  }

  function Kept(fate: seq<Segment>): seq<Line> {
    if fate == [] then []
    else Kept(fate[..|fate| - 1]) + if fate[|fate| - 1].kept then fate[|fate| - 1].lines else []
  }

  function Lost(fate: seq<Segment>): nat {
    if fate == [] then 0
    else Lost(fate[..|fate| - 1]) + if fate[|fate| - 1].kept then 0 else |fate[|fate| - 1].lines|
  }

  lemma FateAdd(fate: seq<Segment>, x: Segment)
    ensures Told(fate + [x]) == Told(fate) + x.lines
    ensures Kept(fate + [x]) == Kept(fate) + if x.kept then x.lines else []
    ensures Lost(fate + [x]) == Lost(fate) + if x.kept then 0 else |x.lines|
  {
    assert (fate + [x])[..|fate|] == fate;
  }

  lemma {:induction false} NothingLost(fate: seq<Segment>)
    requires Lost(fate) == 0
    ensures Kept(fate) == Told(fate)
    decreases |fate|
  {
    if fate != [] { NothingLost(fate[..|fate| - 1]); }
  }

  // ----- the protocol -----

  /** Where the worker thread is. */
  datatype Phase =
    | Absent
    | AtLoop
    | Getting
    | Holding(entry: Entry)
    | Writing(file: File, lines: seq<Line>)
    | Flushing(todo: seq<File>)

  /** The shared state, and what the run has shown so far: everything put, the
      fate of the lines per file, files hit by an error, workers that ended. */
  datatype Sys = Sys(queue: seq<Entry>, stop: bool, phase: Phase, batches: map<File, seq<Line>>,
                     disk: map<File, seq<Line>>,
                     put: seq<Entry>, fate: map<File, seq<Segment>>, broken: set<File>, exits: nat)

  /** `_ensure_json_writer` has found or started a worker before, which may have
      left since. */
  ghost predicate Puts(s: Sys, e: Entry, s': Sys) {
    && (s.phase != Absent || s.exits > 0)
    && s' == s.(queue := s.queue + [e], put := s.put + [e])
  }

  /** `_ensure_json_writer` finds no live thread and starts one. */
  ghost predicate Starts(s: Sys, s': Sys) {
    s.phase == Absent && s' == s.(phase := AtLoop, batches := map[])
  }

  /** The thread could not be started: the line is appended past the queue. */
  ghost predicate Bypasses(s: Sys, f: File, s': Sys) {
    s.phase == Absent && s' == s.(disk := s.disk[f := Of(s'.disk, f)], broken := s.broken + {f})
  }

  ghost predicate Stops(s: Sys, s': Sys) { s' == s.(stop := true) }

  /** Append to a file, which then keeps all of it; or fail, after which nothing
      is known of the file. */
  ghost predicate Writes(s: Sys, f: File, lines: seq<Line>, phase': Phase, s': Sys) {
    || s' == s.(phase := phase', batches := s.batches - {f}, disk := s.disk[f := Of(s.disk, f) + lines],
                fate := s.fate[f := Of(s.fate, f) + [Segment(lines, true)]])
    || s' == s.(phase := phase', batches := s.batches - {f}, disk := s.disk[f := Of(s'.disk, f)],
                fate := s.fate[f := Of(s.fate, f) + [Segment(lines, false)]], broken := s.broken + {f})
  }

  /** A listing of the keys, each once. */
  ghost predicate Snapshot(keys: set<File>, todo: seq<File>) {
    && (forall f :: f in todo <==> f in keys)
    && forall i, j :: 0 <= i < j < |todo| ==> todo[i] != todo[j]
  }

  lemma SnapshotRest(keys: set<File>, todo: seq<File>)
    requires Snapshot(keys, todo) && todo != []
    ensures Snapshot(keys - {todo[0]}, todo[1..])
  {
    assert forall f :: f in todo <==> f == todo[0] || f in todo[1..];
  }

  function Forsaken(fate: map<File, seq<Segment>>, batches: map<File, seq<Line>>): map<File, seq<Segment>> {
    map f | f in fate.Keys + batches.Keys :: Of(fate, f) + if f in batches then [Segment(batches[f], false)] else []
  }

  /** The loop test: go on, or leave and forget what is not written. */
  ghost predicate Tests(s: Sys, s': Sys) {
    && s.phase == AtLoop
    && if !s.stop || s.queue != [] then s' == s.(phase := Getting)
       else s' == s.(phase := Absent, batches := map[], fate := Forsaken(s.fate, s.batches), exits := s.exits + 1)
  }

  ghost predicate Gets(s: Sys, s': Sys) {
    && s.phase == Getting
    && if s.queue != [] then s' == s.(queue := s.queue[1..], phase := Holding(s.queue[0]))
       else s'.phase.Flushing? && s' == s.(phase := s'.phase) && Snapshot(s.batches.Keys, s'.phase.todo)
  }

  ghost predicate Appends(size: int, s: Sys, s': Sys) {
    && s.phase.Holding?
    && var e := s.phase.entry;
       var lines := Of(s.batches, e.file) + [e.line];
       s' == if |lines| >= size then s.(phase := Writing(e.file, lines), batches := s.batches - {e.file})
             else s.(phase := AtLoop, batches := s.batches[e.file := lines])
  }

  ghost predicate Flushes(s: Sys, s': Sys) {
    && s.phase.Flushing?
    && if s.phase.todo == [] then s' == s.(phase := AtLoop)
       else Writes(s, s.phase.todo[0], Of(s.batches, s.phase.todo[0]), Flushing(s.phase.todo[1..]), s')
  }

  ghost predicate WorkerStep(size: int, s: Sys, s': Sys) {
    || Tests(s, s')
    || Gets(s, s')
    || Appends(size, s, s')
    || (s.phase.Writing? && Writes(s, s.phase.file, s.phase.lines, AtLoop, s'))
    || Flushes(s, s')
  }

  ghost predicate Step(size: int, s: Sys, s': Sys) {
    || (exists e :: Puts(s, e, s'))
    || Starts(s, s')
    || (exists f :: Bypasses(s, f, s'))
    || Stops(s, s')
    || WorkerStep(size, s, s')
  }

  ghost predicate Start(s: Sys) {
    && s.queue == [] && !s.stop && s.phase == Absent && s.batches == map[]
    && s.put == [] && s.fate == map[] && s.broken == {} && s.exits == 0
  }

  ghost predicate Run(size: int, tr: seq<Sys>) {
    && tr != [] && Start(tr[0])
    && forall i :: 0 <= i < |tr| - 1 ==> Step(size, tr[i], tr[i + 1])
  }

  // ----- conservation -----

  /** Taken out of the batches, not yet written. */
  function Popped(ph: Phase, f: File): seq<Line> { if ph.Writing? && ph.file == f then ph.lines else [] }

  /** Taken out of the queue, not yet in a batch. */
  function InHand(ph: Phase, f: File): seq<Line> { if ph.Holding? then Bit(ph.entry, f) else [] }

  /** Lines of a file that are under way, oldest first. */
  function Pending(s: Sys, f: File): seq<Line> {
    Popped(s.phase, f) + Of(s.batches, f) + InHand(s.phase, f) + Lines(s.queue, f)
  }

  /** Every line put is on its way or has met its fate, in order; an intact file
      holds what it held before and all lines kept since. */
  ghost predicate Conserved(disk0: seq<Line>, s: Sys, f: File) {
    && Lines(s.put, f) == Told(Of(s.fate, f)) + Pending(s, f)
    && (f !in s.broken ==> Of(s.disk, f) == disk0 + Kept(Of(s.fate, f)))
  }

  lemma PutsKeeps(disk0: seq<Line>, s: Sys, e: Entry, s': Sys, f: File)
    requires Conserved(disk0, s, f) && Puts(s, e, s')
    ensures Conserved(disk0, s', f)
  {
    LinesPut(s.queue, e, f);
    LinesPut(s.put, e, f);
    hide Lines, Told, Kept, Of, Popped, InHand, Bit;
  }

  lemma BypassesKeeps(disk0: seq<Line>, s: Sys, g: File, s': Sys, f: File)
    requires Conserved(disk0, s, f) && Bypasses(s, g, s')
    ensures Conserved(disk0, s', f)
  {
    OfSet(s.disk, g, Of(s'.disk, g), f);
    hide Lines, Told, Kept, Of, Popped, InHand, Bit;
  }

  lemma PendingIs(s: Sys, g: File, lines: seq<Line>)
    requires Popped(s.phase, g) + Of(s.batches, g) == lines && InHand(s.phase, g) == []
    ensures Pending(s, g) == lines + Lines(s.queue, g)
  {
    hide Lines, Of, Popped, InHand;
  }

  /** A write settles the fate of what was popped and batched of its file. */
  lemma WritesSame(disk0: seq<Line>, s: Sys, g: File, lines: seq<Line>, ph: Phase, s': Sys)
    requires Conserved(disk0, s, g) && Writes(s, g, lines, ph, s')
    requires Popped(ph, g) == [] == InHand(ph, g) && InHand(s.phase, g) == []
    requires Popped(s.phase, g) + Of(s.batches, g) == lines
    ensures Conserved(disk0, s', g)
  {
    var fate, queue := Of(s.fate, g), Lines(s.queue, g);
    WritesEffect(s, g, lines, ph, s');
    hide Lines, Told, Kept, Of, Lost, Popped, InHand, Writes, Pending;
    PendingIs(s, g, lines);
    PendingIs(s', g, []);
    assert Pending(s', g) == queue;
    Associate(Told(fate), lines, queue);
    Associate(disk0, Kept(fate), lines);
  }

  lemma WritesEffect(s: Sys, g: File, lines: seq<Line>, ph: Phase, s': Sys)
    requires Writes(s, g, lines, ph, s')
    ensures s'.put == s.put && s'.queue == s.queue && s'.phase == ph && s.broken <= s'.broken
    ensures Of(s'.batches, g) == [] && Told(Of(s'.fate, g)) == Told(Of(s.fate, g)) + lines
    ensures g !in s'.broken ==>
      Of(s'.disk, g) == Of(s.disk, g) + lines && Kept(Of(s'.fate, g)) == Kept(Of(s.fate, g)) + lines
  {
    FateAdd(Of(s.fate, g), Segment(lines, true));
    FateAdd(Of(s.fate, g), Segment(lines, false));
    hide Told, Kept, Lost;
  }

  lemma WritesOther(disk0: seq<Line>, s: Sys, g: File, lines: seq<Line>, ph: Phase, s': Sys, f: File)
    requires Conserved(disk0, s, f) && Writes(s, g, lines, ph, s') && f != g
    requires Popped(ph, f) == Popped(s.phase, f) && InHand(ph, f) == InHand(s.phase, f)
    ensures Conserved(disk0, s', f)
  {
    hide Lines, Told, Kept, Of, Popped, InHand, Lost;
    var fate := Of(s.fate, g);
    OfRemove(s.batches, g, f);
    OfSet(s.disk, g, Of(s'.disk, g), f);
    OfSet(s.disk, g, Of(s.disk, g) + lines, f);
    OfSet(s.fate, g, fate + [Segment(lines, true)], f);
    OfSet(s.fate, g, fate + [Segment(lines, false)], f);
  }

  lemma Associate<T>(a: seq<T>, b: seq<T>, c: seq<T>)
    ensures (a + b) + c == a + (b + c)
  {}

  lemma ForsakenOf(fate: map<File, seq<Segment>>, batches: map<File, seq<Line>>, f: File)
    ensures Told(Of(Forsaken(fate, batches), f)) == Told(Of(fate, f)) + Of(batches, f)
    ensures Kept(Of(Forsaken(fate, batches), f)) == Kept(Of(fate, f))
    ensures Lost(Of(Forsaken(fate, batches), f)) == Lost(Of(fate, f)) + |Of(batches, f)|
  {
    if f in batches { FateAdd(Of(fate, f), Segment(batches[f], false)); }
    hide Told, Kept, Lost;
    if f !in batches { assert Of(fate, f) + [] == Of(fate, f); }
  }

  ghost predicate Exits(s: Sys, s': Sys) { Tests(s, s') && s'.exits != s.exits }

  lemma ExitPending(s: Sys, s': Sys, f: File)
    requires Exits(s, s')
    ensures Pending(s, f) == Of(s.batches, f) && Pending(s', f) == []
  {
    hide Forsaken;
  }

  lemma ExitKeeps(disk0: seq<Line>, s: Sys, s': Sys, f: File)
    requires Conserved(disk0, s, f) && Exits(s, s')
    ensures Conserved(disk0, s', f)
    ensures Lost(Of(s'.fate, f)) == Lost(Of(s.fate, f)) + |Of(s.batches, f)|
  {
    ForsakenOf(s.fate, s.batches, f);
    ExitPending(s, s', f);
    hide Lines, Told, Kept, Of, Lost, Forsaken, Pending;
  }

  lemma TestsKeeps(disk0: seq<Line>, s: Sys, s': Sys, f: File)
    requires Conserved(disk0, s, f) && Tests(s, s')
    ensures Conserved(disk0, s', f)
  {
    hide Lines, Told, Kept, Of, Forsaken;
    if s'.exits != s.exits { ExitKeeps(disk0, s, s', f); }
  }

  lemma MoveOn(batch: seq<Line>, hand: seq<Line>, queue: seq<Line>, popped: seq<Line>, batch': seq<Line>)
    requires popped + batch' == batch + hand
    ensures [] + batch + [] + (hand + queue) == [] + batch + hand + queue
    ensures popped + batch' + [] + queue == [] + batch + hand + queue
  {}

  /** Taking from the queue, and from the hand, leaves what is pending the same. */
  lemma GetsPending(s: Sys, s': Sys, f: File)
    requires Gets(s, s')
    ensures Pending(s', f) == Pending(s, f)
  {
    hide Of, Snapshot;
    if s.queue != [] {
      LinesGet(s.queue, f);
      MoveOn(Of(s.batches, f), Bit(s.queue[0], f), Lines(s'.queue, f), Of(s.batches, f) + Bit(s.queue[0], f), []);
      hide Lines, Bit;
    }
  }

  lemma AppendsPending(size: int, s: Sys, s': Sys, f: File)
    requires Appends(size, s, s')
    ensures Pending(s', f) == Pending(s, f)
  {
    var e := s.phase.entry;
    OfSet(s.batches, e.file, Of(s.batches, e.file) + [e.line], f);
    OfRemove(s.batches, e.file, f);
    hide Of, Lines;
    assert Popped(s'.phase, f) + Of(s'.batches, f) == Of(s.batches, f) + Bit(e, f);
    MoveOn(Of(s.batches, f), Bit(e, f), Lines(s.queue, f), Popped(s'.phase, f), Of(s'.batches, f));
    hide Bit;
  }

  lemma GetsKeeps(disk0: seq<Line>, s: Sys, s': Sys, f: File)
    requires Conserved(disk0, s, f) && Gets(s, s')
    ensures Conserved(disk0, s', f)
  {
    GetsPending(s, s', f);
    hide Pending, Lines, Told, Kept, Of, Snapshot;
  }

  lemma AppendsKeeps(size: int, disk0: seq<Line>, s: Sys, s': Sys, f: File)
    requires Conserved(disk0, s, f) && Appends(size, s, s')
    ensures Conserved(disk0, s', f)
  {
    AppendsPending(size, s, s', f);
    hide Pending, Lines, Told, Kept, Of;
  }

  // ----- batches -----

  /** What the worker keeps about its batches. */
  ghost predicate Batched(size: int, s: Sys) {
    && (forall f :: |Of(s.batches, f)| < Cap(size))
    && (s.phase == Absent ==> s.batches == map[])
    && (s.phase.Writing? ==> s.phase.file !in s.batches)
    && (s.phase.Flushing? ==> Snapshot(s.batches.Keys, s.phase.todo))
  }

  lemma BatchedFlush(size: int, s: Sys, s': Sys)
    requires Batched(size, s) && Flushes(s, s')
    ensures Batched(size, s')
  {
    hide Of;
    if s.phase.todo != [] {
      var g := s.phase.todo[0];
      SnapshotRest(s.batches.Keys, s.phase.todo);
      hide Snapshot;
      assert s'.batches == s.batches - {g} && s'.phase == Flushing(s.phase.todo[1..]);
      assert (s.batches - {g}).Keys == s.batches.Keys - {g};
      forall f ensures |Of(s'.batches, f)| < Cap(size) { OfRemove(s.batches, g, f); }
    }
  }

  lemma BatchedAppend(size: int, s: Sys, s': Sys)
    requires Batched(size, s) && Appends(size, s, s')
    ensures Batched(size, s')
  {
    var e := s.phase.entry;
    var lines := Of(s.batches, e.file) + [e.line];
    hide Of, Snapshot;
    forall f ensures |Of(s'.batches, f)| < Cap(size) {
      OfSet(s.batches, e.file, lines, f);
      OfRemove(s.batches, e.file, f);
    }
  }

  lemma BatchedWrite(size: int, s: Sys, s': Sys)
    requires Batched(size, s) && s.phase.Writing? && Writes(s, s.phase.file, s.phase.lines, AtLoop, s')
    ensures Batched(size, s')
  {
    assert s'.batches == s.batches by { assert s.batches - {s.phase.file} == s.batches; }
  }

  lemma BatchedTests(size: int, s: Sys, s': Sys)
    requires Batched(size, s) && Tests(s, s')
    ensures Batched(size, s')
  {
    hide Forsaken, Snapshot;
  }

  lemma BatchedGets(size: int, s: Sys, s': Sys)
    requires Batched(size, s) && Gets(s, s')
    ensures Batched(size, s')
  {
    hide Snapshot, Of;
  }

  /** The steps of the other threads. */
  lemma BatchedOutside(size: int, s: Sys, s': Sys)
    requires Batched(size, s) && (Starts(s, s') || Stops(s, s') || (s'.batches == s.batches && s'.phase == s.phase))
    ensures Batched(size, s')
  {
    hide Snapshot, Of;
  }

  lemma BatchedStep(size: int, s: Sys, s': Sys)
    requires Batched(size, s) && Step(size, s, s')
    ensures Batched(size, s')
  {
    hide Batched, Flushes, Appends, Writes, Tests, Gets, Of;
    if Flushes(s, s') {
      BatchedFlush(size, s, s');
    } else if Appends(size, s, s') {
      BatchedAppend(size, s, s');
    } else if Tests(s, s') {
      BatchedTests(size, s, s');
    } else if Gets(s, s') {
      BatchedGets(size, s, s');
    } else if s.phase.Writing? && Writes(s, s.phase.file, s.phase.lines, AtLoop, s') {
      BatchedWrite(size, s, s');
    } else {
      BatchedOutside(size, s, s');
    }
  }

  // ----- whole runs -----

  /** Each worker that ended took with it less than one batch per file. */
  ghost predicate LossBound(size: int, s: Sys, f: File) {
    f !in s.broken ==> Lost(Of(s.fate, f)) <= s.exits * (Cap(size) - 1)
  }

  lemma WriterKeeps(disk0: seq<Line>, s: Sys, s': Sys, f: File)
    requires Conserved(disk0, s, f) && s.phase.Writing? && Writes(s, s.phase.file, s.phase.lines, AtLoop, s')
    requires s.phase.file !in s.batches
    ensures Conserved(disk0, s', f)
  {
    var g, lines := s.phase.file, s.phase.lines;
    assert Of(s.batches, g) == [];
    hide Conserved, Writes;
    if f == g {
      WritesSame(disk0, s, g, lines, AtLoop, s');
    } else {
      WritesOther(disk0, s, g, lines, AtLoop, s', f);
    }
  }

  lemma FlushesKeeps(disk0: seq<Line>, s: Sys, s': Sys, f: File)
    requires Conserved(disk0, s, f) && Flushes(s, s')
    ensures Conserved(disk0, s', f)
  {
    hide Lines, Told, Kept, Of, Writes;
    if s.phase.todo != [] {
      var g, ph := s.phase.todo[0], Flushing(s.phase.todo[1..]);
      hide Conserved;
      if f == g {
        WritesSame(disk0, s, g, Of(s.batches, g), ph, s');
      } else {
        WritesOther(disk0, s, g, Of(s.batches, g), ph, s', f);
      }
    }
  }

  lemma StartsKeeps(disk0: seq<Line>, s: Sys, s': Sys, f: File)
    requires Conserved(disk0, s, f) && ((Starts(s, s') && s.batches == map[]) || Stops(s, s'))
    ensures Conserved(disk0, s', f)
  {
    hide Lines, Told, Kept, Of;
  }

  lemma ConservedStep(size: int, disk0: seq<Line>, s: Sys, s': Sys, f: File)
    requires Conserved(disk0, s, f) && Batched(size, s) && Step(size, s, s')
    ensures Conserved(disk0, s', f)
  {
    hide Conserved;
    if e :| Puts(s, e, s') {
      PutsKeeps(disk0, s, e, s', f);
    } else if g :| Bypasses(s, g, s') {
      BypassesKeeps(disk0, s, g, s', f);
    } else if Tests(s, s') {
      TestsKeeps(disk0, s, s', f);
    } else if Gets(s, s') {
      GetsKeeps(disk0, s, s', f);
    } else if Appends(size, s, s') {
      AppendsKeeps(size, disk0, s, s', f);
    } else if Flushes(s, s') {
      FlushesKeeps(disk0, s, s', f);
    } else if Starts(s, s') || Stops(s, s') {
      StartsKeeps(disk0, s, s', f);
    } else {
      WriterKeeps(disk0, s, s', f);
    }
  }

  lemma WritesLoss(s: Sys, g: File, lines: seq<Line>, ph: Phase, s': Sys, f: File)
    requires Writes(s, g, lines, ph, s') && f !in s'.broken
    ensures Lost(Of(s'.fate, f)) == Lost(Of(s.fate, f)) && f !in s.broken && s'.exits == s.exits
  {
    OfSet(s.fate, g, Of(s.fate, g) + [Segment(lines, true)], f);
    OfSet(s.fate, g, Of(s.fate, g) + [Segment(lines, false)], f);
    FateAdd(Of(s.fate, g), Segment(lines, true));
    hide Of, Lost;
  }

  lemma OneBatchMore(lost: nat, exits: nat, most: nat, batch: nat)
    requires lost <= exits * most && batch <= most
    ensures lost + batch <= (exits + 1) * most
  {}

  lemma ExitCounts(s: Sys, s': Sys)
    requires Exits(s, s')
    ensures s'.exits == s.exits + 1 && s'.broken == s.broken
  {
    hide Forsaken;
  }

  lemma ExitLoss(size: int, disk0: seq<Line>, s: Sys, s': Sys, f: File)
    requires Conserved(disk0, s, f) && Batched(size, s) && LossBound(size, s, f) && Exits(s, s')
    ensures LossBound(size, s', f)
  {
    hide *;
    BatchBelow(size, s, f);
    ExitKeeps(disk0, s, s', f);
    ExitCounts(s, s');
    BoundMoves(size, s, s', f);
  }

  lemma BatchBelow(size: int, s: Sys, f: File)
    requires Batched(size, s)
    ensures |Of(s.batches, f)| < Cap(size)
  {}

  lemma BoundMoves(size: int, s: Sys, s': Sys, f: File)
    requires LossBound(size, s, f) && |Of(s.batches, f)| < Cap(size)
    requires s'.exits == s.exits + 1 && s'.broken == s.broken
    requires Lost(Of(s'.fate, f)) == Lost(Of(s.fate, f)) + |Of(s.batches, f)|
    ensures LossBound(size, s', f)
  {
    hide Lost, Of, Cap;
    if f !in s.broken { OneBatchMore(Lost(Of(s.fate, f)), s.exits, Cap(size) - 1, |Of(s.batches, f)|); }
  }

  lemma WriterLoss(s: Sys, s': Sys, f: File)
    requires f !in s'.broken
    requires Flushes(s, s') || (s.phase.Writing? && Writes(s, s.phase.file, s.phase.lines, AtLoop, s'))
    ensures Lost(Of(s'.fate, f)) == Lost(Of(s.fate, f)) && f !in s.broken && s'.exits == s.exits
  {
    if s.phase.Writing? {
      WritesLoss(s, s.phase.file, s.phase.lines, AtLoop, s', f);
    } else if s.phase.todo != [] {
      WritesLoss(s, s.phase.todo[0], Of(s.batches, s.phase.todo[0]), Flushing(s.phase.todo[1..]), s', f);
    }
  }

  lemma LossStep(size: int, disk0: seq<Line>, s: Sys, s': Sys, f: File)
    requires Conserved(disk0, s, f) && Batched(size, s) && LossBound(size, s, f) && Step(size, s, s')
    ensures LossBound(size, s', f)
  {
    if f !in s'.broken {
      if Tests(s, s') {
        hide Forsaken, Lost, Of, Conserved, Batched;
        if s'.exits != s.exits { ExitLoss(size, disk0, s, s', f); }
      } else if Flushes(s, s') || (s.phase.Writing? && Writes(s, s.phase.file, s.phase.lines, AtLoop, s')) {
        hide Flushes, Writes;
        WriterLoss(s, s', f);
      } else {
        FateStays(size, s, s');
        hide Step, Flushes, Writes, Tests, Lost, Of, Conserved, Batched;
        assert s'.exits == s.exits && Of(s'.fate, f) == Of(s.fate, f);
      }
    }
  }

  lemma FateStays(size: int, s: Sys, s': Sys)
    requires Step(size, s, s') && !Tests(s, s') && !Flushes(s, s')
    requires s.phase.Writing? ==> !Writes(s, s.phase.file, s.phase.lines, AtLoop, s')
    ensures s'.fate == s.fate && s'.exits == s.exits && s.broken <= s'.broken
  {
    hide Writes, Flushes, Snapshot, Of, Forsaken;
  }

  lemma StepOf(size: int, tr: seq<Sys>, i: nat)
    requires Run(size, tr) && i + 1 < |tr|
    ensures Step(size, tr[i], tr[i + 1])
  {
    hide Step, Start;
  }

  /** In every reachable state and for every file: the lines put so far are, in
      order, those whose fate is known, the batch and what is in flight; and each
      worker lost less than one batch. */
  lemma {:induction false} Conservation(size: int, tr: seq<Sys>, i: nat, f: File)
    requires Run(size, tr) && i < |tr|
    ensures Conserved(Of(tr[0].disk, f), tr[i], f)
    ensures Batched(size, tr[i]) && LossBound(size, tr[i], f)
    decreases i
  {
    if i > 0 {
      hide Run, Step, Conserved, Batched, LossBound, Of;
      Conservation(size, tr, i - 1, f);
      StepOf(size, tr, i - 1);
      ConservedStep(size, Of(tr[0].disk, f), tr[i - 1], tr[i], f);
      BatchedStep(size, tr[i - 1], tr[i]);
      LossStep(size, Of(tr[0].disk, f), tr[i - 1], tr[i], f);
    }
  }

  /** The file has gained a prefix of the lines put that lacks less than `n` of them. */
  ghost predicate Prefix(disk0: seq<Line>, disk: seq<Line>, put: seq<Line>, n: nat) {
    && disk0 <= disk <= disk0 + put
    && |disk0| + |put| - |disk| < n
  }

  /** When the first worker ends, an intact file has gained all lines put for it
      in order, but for the last few, fewer than a batch. */
  lemma ExitPrefix(size: int, tr: seq<Sys>, i: nat, f: File)
    requires Run(size, tr) && i + 1 < |tr|
    requires tr[i].exits == 0 && tr[i + 1].exits == 1 && f !in tr[i].broken
    ensures Prefix(Of(tr[0].disk, f), Of(tr[i + 1].disk, f), Lines(tr[i + 1].put, f), Cap(size))
  {
    Conservation(size, tr, i, f);
    StepOf(size, tr, i);
    hide Run, Step, Conserved, Batched, LossBound, Of;
    ExitStep(size, Of(tr[0].disk, f), tr[i], tr[i + 1], f);
  }

  lemma ExitStep(size: int, disk0: seq<Line>, s: Sys, s': Sys, f: File)
    requires Conserved(disk0, s, f) && Batched(size, s) && LossBound(size, s, f) && Step(size, s, s')
    requires s.exits == 0 && s'.exits == 1 && f !in s.broken
    ensures Prefix(disk0, Of(s'.disk, f), Lines(s'.put, f), Cap(size))
  {
    OnlyTestsExit(size, s, s');
    ExitPending(s, s', f);
    NothingLost(Of(s.fate, f));
    assert |Of(s.batches, f)| < Cap(size);
    assert s'.disk == s.disk && s'.put == s.put;
    var told, rest := Told(Of(s.fate, f)), Of(s.batches, f);
    Associate(disk0, told, rest);
    hide Step, Exits, Forsaken, Pending, Of, Lines, Told, Kept, Lost, Cap;
    assert Of(s.disk, f) == disk0 + told && Lines(s.put, f) == told + rest;
  }

  lemma OnlyTestsExit(size: int, s: Sys, s': Sys)
    requires Step(size, s, s') && s'.exits != s.exits
    ensures Exits(s, s')
  {
    hide Writes, Snapshot, Of, Forsaken;
    if s.phase.Writing? {
      WritesExits(s, s.phase.file, s.phase.lines, AtLoop, s');
    } else if s.phase.Flushing? && s.phase.todo != [] {
      WritesExits(s, s.phase.todo[0], Of(s.batches, s.phase.todo[0]), Flushing(s.phase.todo[1..]), s');
    }
  }

  lemma WritesExits(s: Sys, f: File, lines: seq<Line>, ph: Phase, s': Sys)
    ensures Writes(s, f, lines, ph, s') ==> s'.exits == s.exits
  {
    hide Of;
  }

  /** Once all batches have been flushed after an empty poll, every line that is
      not in the queue again has met its fate; before any worker ended, an intact
      file holds all of them. */
  lemma FlushedAll(size: int, tr: seq<Sys>, i: nat, f: File)
    requires Run(size, tr) && i < |tr| && tr[i].phase == Flushing([])
    ensures var s := tr[i];
      && Lines(s.put, f) == Told(Of(s.fate, f)) + Lines(s.queue, f)
      && (s.exits == 0 && f !in s.broken ==> Of(s.disk, f) + Lines(s.queue, f) == Of(tr[0].disk, f) + Lines(s.put, f))
  {
    Conservation(size, tr, i, f);
    hide Run;
    FlushedState(size, Of(tr[0].disk, f), tr[i], f);
  }

  lemma FlushedState(size: int, disk0: seq<Line>, s: Sys, f: File)
    requires Conserved(disk0, s, f) && Batched(size, s) && LossBound(size, s, f) && s.phase == Flushing([])
    ensures Lines(s.put, f) == Told(Of(s.fate, f)) + Lines(s.queue, f)
    ensures s.exits == 0 && f !in s.broken ==> Of(s.disk, f) + Lines(s.queue, f) == disk0 + Lines(s.put, f)
  {
    FlushedPending(size, s, f);
    hide Batched, Pending, Lines, Told, Kept, Lost, Of;
    if s.exits == 0 && f !in s.broken {
      NothingLost(Of(s.fate, f));
      Associate(disk0, Told(Of(s.fate, f)), Lines(s.queue, f));
    }
  }

  lemma FlushedPending(size: int, s: Sys, f: File)
    requires Batched(size, s) && s.phase == Flushing([])
    ensures Pending(s, f) == Lines(s.queue, f)
  {
    assert f !in s.batches;
    hide Lines;
  }

  // ----- which configurations lose lines -----

  /** `late`: a line may be put when the worker that was found alive has left. */
  ghost predicate RunOf(size: int, late: bool, tr: seq<Sys>) {
    && Run(size, tr)
    && (late || forall i :: 0 <= i < |tr| - 1 && tr[i].phase == Absent ==> tr[i + 1].put == tr[i].put)
  }

  /** In the queue, with the writer told to stop and nobody at work. */
  ghost predicate Stranded(s: Sys, f: File) { s.phase == Absent && s.stop && Lines(s.queue, f) != [] }

  /** A run that ends with lines lost, or left lying, although no write of their
      file failed. */
  ghost predicate Loses(size: int, late: bool, tr: seq<Sys>, f: File) {
    && RunOf(size, late, tr)
    && var s := tr[|tr| - 1];
       f !in s.broken && (Lost(Of(s.fate, f)) > 0 || Stranded(s, f))
  }

  /** Without late lines the queue is empty whenever nobody is at work. */
  lemma {:induction false} NothingStranded(size: int, tr: seq<Sys>, i: nat)
    requires RunOf(size, false, tr) && i < |tr|
    ensures tr[i].phase == Absent ==> tr[i].queue == []
    decreases i
  {
    if i > 0 {
      NothingStranded(size, tr, i - 1);
      var s, s' := tr[i - 1], tr[i];
      assert Step(size, s, s');
      if e :| Puts(s, e, s') {
        assert |s'.put| == |s.put| + 1;
      } else {
        AbsentQueue(size, s, s');
      }
    }
  }

  lemma AbsentQueue(size: int, s: Sys, s': Sys)
    requires Step(size, s, s') && !exists e :: Puts(s, e, s')
    requires s.phase == Absent ==> s.queue == []
    ensures s'.phase == Absent ==> s'.queue == []
  {
    hide Of, Forsaken, Snapshot, Writes;
    if s.phase.Writing? {
      WritesTo(s, s.phase.file, s.phase.lines, AtLoop, s');
    } else if s.phase.Flushing? && s.phase.todo != [] {
      WritesTo(s, s.phase.todo[0], Of(s.batches, s.phase.todo[0]), Flushing(s.phase.todo[1..]), s');
    }
  }

  lemma WritesTo(s: Sys, f: File, lines: seq<Line>, ph: Phase, s': Sys)
    ensures Writes(s, f, lines, ph, s') ==> s'.phase == ph
  {
    hide Of;
  }

  lemma Extend(size: int, tr: seq<Sys>, s': Sys)
    requires RunOf(size, false, tr) && Step(size, tr[|tr| - 1], s')
    requires tr[|tr| - 1].phase == Absent ==> s'.put == tr[|tr| - 1].put
    ensures RunOf(size, false, tr + [s'])
  {
    hide Step, Start;
    var next := tr + [s'];
    forall i | 0 <= i < |next| - 1 ensures Step(size, next[i], next[i + 1]) {
      if i < |tr| - 1 { assert Step(size, tr[i], tr[i + 1]); }
    }
  }

  /** A worker has been started and asks for its first item. */
  lemma Started(size: int) returns (tr: seq<Sys>, s: Sys)
    ensures RunOf(size, false, tr) && s == tr[|tr| - 1]
    ensures s == Sys([], false, AtLoop, map[], map[], [], map[], {}, 0)
  {
    var s0 := Sys([], false, Absent, map[], map[], [], map[], {}, 0);
    s := s0.(phase := AtLoop);
    assert Starts(s0, s);
    Extend(size, [s0], s);
    tr := [s0] + [s];
  }

  /** One line is put and taken, the writer is told to stop and leaves. */
  lemma LosingRun(size: int, late: bool, f: File, l: Line) returns (tr: seq<Sys>)
    requires size > 1
    ensures Loses(size, late, tr, f)
  {
    var e := Entry(f, l);
    var s1;
    tr, s1 := Started(size);
    var s2 := s1.(phase := Getting);
    assert Tests(s1, s2);
    Extend(size, tr, s2);
    tr := tr + [s2];
    var s3 := s2.(queue := [e], put := [e]);
    assert Puts(s2, e, s3);
    Extend(size, tr, s3);
    tr := tr + [s3];
    var s4 := s3.(queue := [], phase := Holding(e));
    assert Gets(s3, s4);
    Extend(size, tr, s4);
    tr := tr + [s4];
    var s5 := s4.(phase := AtLoop, batches := map[f := [l]]);
    assert Of(s4.batches, f) + [l] == [l] && s4.batches[f := [l]] == s5.batches;
    assert Appends(size, s4, s5);
    Extend(size, tr, s5);
    tr := tr + [s5];
    var s6 := s5.(stop := true);
    assert Stops(s5, s6);
    Extend(size, tr, s6);
    tr := tr + [s6];
    var s7 := s6.(phase := Absent, batches := map[], fate := Forsaken(s6.fate, s6.batches), exits := 1);
    assert Tests(s6, s7);
    Extend(size, tr, s7);
    ForsakenOf(s6.fate, s6.batches, f);
    tr := tr + [s7];
  }

  /** The worker found alive is told to stop and leaves before the line is put. */
  lemma StrandingRun(size: int, f: File, l: Line) returns (tr: seq<Sys>)
    ensures Loses(size, true, tr, f)
  {
    var e := Entry(f, l);
    var s1;
    tr, s1 := Started(size);
    var s2 := s1.(stop := true);
    assert Stops(s1, s2);
    Extend(size, tr, s2);
    tr := tr + [s2];
    var s3 := s2.(phase := Absent, fate := Forsaken(map[], map[]), exits := 1);
    assert Tests(s2, s3);
    Extend(size, tr, s3);
    tr := tr + [s3];
    var s4 := s3.(queue := [e], put := [e]);
    assert Puts(s3, e, s4);
    forall i | 0 <= i < |tr + [s4]| - 1 ensures Step(size, (tr + [s4])[i], (tr + [s4])[i + 1]) {
      if i < |tr| - 1 { assert Step(size, tr[i], tr[i + 1]); }
    }
    tr := tr + [s4];
    assert Lines([e], f) == Lines([], f) + [l] by { LinesPut([], e, f); assert [] + [e] == [e]; }
  }

  /** No run loses a line of an intact file exactly when batches are of one line
      and no line is put after the worker has left. */
  lemma LossExactly(size: int, late: bool)
    ensures size <= 1 && !late <==> forall tr: seq<Sys>, f: File :: !Loses(size, late, tr, f)
  {
    var f, l := File("out.json"), Line("{}");
    if size > 1 {
      var tr := LosingRun(size, late, f, l);
    } else if late {
      var tr := StrandingRun(size, f, l);
    } else {
      forall tr: seq<Sys>, f: File ensures !Loses(size, late, tr, f) {
        if RunOf(size, false, tr) {
          Conservation(size, tr, |tr| - 1, f);
          NothingStranded(size, tr, |tr| - 1);
        }
      }
    }
  }

  // ----- the worker's loop, undisturbed -----

  function Flow(disk: map<File, seq<Line>>, batches: map<File, seq<Line>>, queue: seq<Entry>, f: File): seq<Line> {
    Of(disk, f) + Of(batches, f) + Lines(queue, f)
  }

  lemma FlowGet(disk: map<File, seq<Line>>, batches: map<File, seq<Line>>, queue: seq<Entry>,
                disk': map<File, seq<Line>>, batches': map<File, seq<Line>>, f: File)
    requires queue != []
    requires Of(disk', f) + Of(batches', f) == Of(disk, f) + Of(batches, f) + Bit(queue[0], f)
    ensures Flow(disk', batches', queue[1..], f) == Flow(disk, batches, queue, f)
  {
    LinesGet(queue, f);
    hide Lines, Of, Bit;
  }

  class Writer {
    const size: int
    var queue: seq<Entry>
    var batches: map<File, seq<Line>>
    var disk: map<File, seq<Line>>
    ghost var broken: set<File>

    constructor (size: int, disk: map<File, seq<Line>>)
      ensures this.size == size && queue == [] && batches == map[] && this.disk == disk && broken == {}
    {
      this.size, queue, batches, this.disk, broken := size, [], map[], disk, {};
    }

    ghost predicate Valid() reads this { forall f :: |Of(batches, f)| < Cap(size) }

    /** Written, batched and queued lines of a file. */
    ghost function Through(f: File): seq<Line> reads this { Flow(disk, batches, queue, f) }

    method WriteJsonNdOutput(file: File, line: Line)
      modifies this`queue
      ensures queue == old(queue) + [Entry(file, line)]
      ensures forall f :: Through(f) == old(Through(f)) + if f == file then [line] else []
    {
      queue := queue + [Entry(file, line)];
      forall f ensures Through(f) == old(Through(f)) + Bit(Entry(file, line), f) {
        LinesPut(old(queue), Entry(file, line), f);
        hide Of, Lines, Bit;
        Associate(Of(disk, f) + Of(batches, f), Lines(old(queue), f), Bit(Entry(file, line), f));
      }
    }

    /** Open, write and flush; an exception leaves the file in any state. */
    method AppendTo(file: File, lines: seq<Line>)
      modifies this`disk, this`broken
      ensures old(broken) <= broken <= old(broken) + {file}
      ensures forall f :: f !in broken ==> Of(disk, f) == Of(old(disk), f) + if f == file then lines else []
    {
      var raised: bool := *;
      if raised {
        var junk: seq<Line> := *;
        disk := disk[file := junk];
        broken := broken + {file};
      } else {
        disk := disk[file := Of(disk, file) + lines];
      }
    }

    method FlushAll()
      modifies this`disk, this`batches, this`broken
      ensures batches == map[] && old(broken) <= broken
      ensures forall f :: f !in broken ==> Of(disk, f) == Of(old(disk), f) + Of(old(batches), f)
    {
      while batches != map[]
        invariant old(broken) <= broken
        invariant forall f :: f in batches ==> f in old(batches) && batches[f] == old(batches)[f]
        invariant forall f :: f !in broken ==>
          Of(disk, f) == Of(old(disk), f) + if f in batches then [] else Of(old(batches), f)
        decreases |batches|
      {
        var file: File :| file in batches;
        AppendTo(file, batches[file]);
        batches := batches - {file};
      }
    }

    method Absorb(e: Entry)
      requires Valid()
      modifies this`disk, this`batches, this`broken
      ensures Valid() && old(broken) <= broken
      ensures forall f :: f !in broken ==>
        Of(disk, f) + Of(batches, f) == Of(old(disk), f) + Of(old(batches), f) + if f == e.file then [e.line] else []
    {
      var lines := Of(batches, e.file) + [e.line];
      assert |Of(batches, e.file)| < Cap(size);
      if |lines| >= size {
        batches := batches - {e.file};
        forall f ensures Of(batches, f) == if f == e.file then [] else Of(old(batches), f) {
          OfRemove(old(batches), e.file, f);
        }
        AppendTo(e.file, lines);
        hide Of;
      } else {
        batches := batches[e.file := lines];
        forall f ensures Of(batches, f) == if f == e.file then lines else Of(old(batches), f) {
          OfSet(old(batches), e.file, lines, f);
        }
        hide Of;
      }
      forall f | f !in broken
        ensures Of(disk, f) + Of(batches, f) == Of(old(disk), f) + Of(old(batches), f) + Bit(e, f)
      {
        Associate(Of(old(disk), f), Of(old(batches), f), Bit(e, f));
        hide Of;
      }
    }

    /** One turn of the loop: the next entry, or a flush when there is none. */
    method Turn()
      requires Valid()
      modifies this
      ensures Valid() && old(broken) <= broken
      ensures queue == if old(queue) == [] then [] else old(queue)[1..]
      ensures old(queue) == [] ==> batches == map[]
      ensures forall f :: f !in broken ==> Through(f) == old(Through(f))
    {
      if queue != [] {
        var e := queue[0];
        queue := queue[1..];
        Absorb(e);
        forall f | f !in broken ensures Through(f) == old(Through(f)) {
          FlowGet(old(disk), old(batches), old(queue), disk, batches, f);
        }
      } else {
        FlushAll();
      }
    }

    /** Others put lines. */
    method Arrive(entries: seq<Entry>)
      modifies this`queue
      ensures queue == old(queue) + entries
      ensures forall f :: Through(f) == old(Through(f)) + Lines(entries, f)
    {
      queue := queue + entries;
      forall f ensures Through(f) == old(Through(f)) + Lines(entries, f) {
        LinesConcat(old(queue), entries, f);
      }
    }

    method Round(entries: seq<Entry>)
      requires Valid()
      modifies this
      ensures Valid() && old(broken) <= broken
      ensures |queue| == if old(queue) + entries == [] then 0 else |old(queue)| + |entries| - 1
      ensures forall f :: f !in broken ==> Through(f) == old(Through(f)) + Lines(entries, f)
    {
      hide Flow, Lines, Of;
      Arrive(entries);
      Turn();
    }

    /** The loop of the worker. Before each of its first tests others put some
        lines; at the next test it sees the stop flag. Whatever was put reaches an
        intact file, in order, but for fewer lines than a batch has. */
    method Work(arrivals: seq<seq<Entry>>)
      requires Valid()
      modifies this
      ensures queue == [] && batches == map[] && old(broken) <= broken
      ensures forall f :: f !in broken ==>
        var all := After(old(Through(f)), arrivals, f);
        Of(disk, f) <= all && |all| - |Of(disk, f)| < Cap(size)
    {
      for i := 0 to |arrivals|
        invariant Valid() && old(broken) <= broken
        invariant forall f :: f !in broken ==> Through(f) == After(old(Through(f)), arrivals[..i], f)
      {
        hide Flow, After, Lines, Of;
        forall f ensures After(old(Through(f)), arrivals[..i + 1], f)
                      == After(old(Through(f)), arrivals[..i], f) + Lines(arrivals[i], f) {
          AfterNext(old(Through(f)), arrivals, i, f);
        }
        Round(arrivals[i]);
      }
      assert arrivals[..|arrivals|] == arrivals;
      Drain();
    }

    /** The loop with the stop flag set. */
    method Drain()
      requires Valid()
      modifies this
      ensures queue == [] && batches == map[] && old(broken) <= broken
      ensures forall f :: f !in broken ==>
        Of(disk, f) <= old(Through(f)) && |old(Through(f))| - |Of(disk, f)| < Cap(size)
    {
      while queue != []
        invariant Valid() && old(broken) <= broken
        invariant forall f :: f !in broken ==> Through(f) == old(Through(f))
        decreases |queue|
      {
        hide Flow, Lines, Of;
        Turn();
      }
      batches := map[];
    }
  }

  /** The lines of a file, with those that arrive later. */
  function After(lines: seq<Line>, arrivals: seq<seq<Entry>>, f: File): seq<Line> {
    if arrivals == [] then lines
    else After(lines, arrivals[..|arrivals| - 1], f) + Lines(arrivals[|arrivals| - 1], f)
  }

  lemma AfterNext(lines: seq<Line>, arrivals: seq<seq<Entry>>, i: nat, f: File)
    requires i < |arrivals|
    ensures After(lines, arrivals[..i + 1], f) == After(lines, arrivals[..i], f) + Lines(arrivals[i], f)
  {
    assert arrivals[..i + 1][..i] == arrivals[..i];
  }

  lemma {:induction false} LinesConcat(a: seq<Entry>, b: seq<Entry>, f: File)
    ensures Lines(a + b, f) == Lines(a, f) + Lines(b, f)
    decreases |b|
  {
    if b == [] {
      assert a + b == a;
    } else {
      var n := |b| - 1;
      LinesConcat(a, b[..n], f);
      assert a + b == (a + b[..n]) + [b[n]] && b == b[..n] + [b[n]];
      LinesPut(a + b[..n], b[n], f);
      LinesPut(b[..n], b[n], f);
      hide Lines, Bit;
      Associate(Lines(a, f), Lines(b[..n], f), Bit(b[n], f));
    }
  }
}
