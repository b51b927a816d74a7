/** fast_copy.py, `CopyManager` with a pool of one thread: every copy is an
    uninterrupted `_do_copy`, and copies are run between any two calls. The files
    are always those of the one-by-one specification of the protocol, whether the
    copies interfere or not. */
module CopyPool {
  import opened CopyProtocol
  import opened FastCopy
  import opened Options

  /** Equal on every path but the temporary files that were not there before. */
  ghost predicate SameNamed(before: Files, a: Files, b: Files) {
    forall p: Path :: p.Named? || p in before ==> (p in a <==> p in b) && (p in a ==> a[p] == b[p])
  }

  predicate Proper(t: Task) { t.src.Named? && t.dst.Named? }

  /** Every copy has a buffer for the loops that may run. */
  ghost predicate AllSound(ts: seq<Task>) { forall t <- ts :: Sound(t.opts) }

  /** Each copy is over, and has succeeded exactly if what raised in it allows that. */
  ghost predicate Explained(ts: seq<Task>, results: seq<Phase>, raised: seq<set<Part>>) {
    && |raised| == |results| <= |ts|
    && forall i :: 0 <= i < |results| ==> Outcomes(ts[i], results[i], raised[i])
  }

  ghost predicate Outcomes(t: Task, result: Phase, raised: set<Part>) {
    result == if t.src == t.dst || Succeeds(t.opts, raised) then Done else Failed
  }

  /** What `wait_all` comes to; it raises in the last two cases. */
  datatype Outcome = AllDone | FirstFailure(i: nat) | TimedOut

  class CopyManager {
    const fs: FileSystem
    /** The files when the manager was made. */
    ghost var start: Files
    var futures: seq<Task>
    /** How the copies that have been run ended. */
    var results: seq<Phase>
    /** In which parts of each of them a call has raised. */
    ghost var raised: seq<set<Part>>

    ghost predicate Valid()
      reads this, fs
    {
      && (forall t <- futures :: Proper(t))
      && |results| <= |futures| && Explained(futures, results, raised)
      && (AllSound(futures[..|results|]) ==>
            SameNamed(start, fs.files, OneByOne(start, futures[..|results|], results)))
    }

    constructor (fs: FileSystem)
      ensures Valid() && this.fs == fs && start == fs.files && futures == [] && results == [] && raised == []
    {
      this.fs, start, futures, results, raised := fs, fs.files, [], [], [];
    }

    method Submit(src: Path, dst: Path, opts: Settings)
      requires Valid() && src.Named? && dst.Named?
      modifies this`futures
      ensures Valid() && futures == old(futures) + [Task(src, dst, opts)]
    {
      futures := futures + [Task(src, dst, opts)];
      assert futures[..|results|] == old(futures)[..|results|];
    }

    method SubmitMany(pairs: seq<(Path, Path)>, opts: Settings)
      requires Valid() && forall p <- pairs :: p.0.Named? && p.1.Named?
      modifies this`futures
      ensures Valid()
      ensures futures == old(futures) + seq(|pairs|, i requires 0 <= i < |pairs| => Task(pairs[i].0, pairs[i].1, opts))
    {
      for k := 0 to |pairs|
        invariant Valid()
        invariant futures == old(futures) + seq(k, i requires 0 <= i < k => Task(pairs[i].0, pairs[i].1, opts))
      {
        assert pairs[k] in pairs;
        Submit(pairs[k].0, pairs[k].1, opts);
      }
    }

    /** The thread of the pool takes the next copy. */
    method RunNext()
      requires Valid() && |results| < |futures|
      modifies this`results, this`raised, fs
      ensures Valid() && |results| == |old(results)| + 1 && old(results) <= results && old(raised) <= raised
    {
      var i := |results|;
      var t := futures[i];
      assert t in futures && Proper(t);
      ghost var before, done := fs.files, results;
      var ok := DoCopy(fs, t.src, t.dst, t.opts);
      assert Outcomes(t, if ok then Done else Failed, fs.raised);
      hide Outcomes, Succeeds, InOrder;
      results, raised := results + [if ok then Done else Failed], raised + [fs.raised];
      assert futures[..i + 1][..i] == futures[..i] && futures[..i + 1][i] == t;
      if AllSound(futures[..i + 1]) {
        assert forall u <- futures[..i] :: u in futures[..i + 1];
        assert t in futures[..i + 1];
        OneMore(start, before, fs.files, futures, i, done, ok);
      }
    }

    /** `wait_all`: the pool works until all copies are done or the time is over,
        which is up to `patience`; then the first failure is raised. */
    method WaitAll(patience: nat) returns (outcome: Outcome)
      requires Valid()
      modifies this`results, this`raised, fs
      ensures Valid() && old(results) <= results
      ensures outcome.TimedOut? <==> |results| < |futures|
      ensures outcome.AllDone? <==> |results| == |futures| && forall i :: 0 <= i < |results| ==> results[i] == Done
      ensures outcome.FirstFailure? ==> outcome.i < |results| && results[outcome.i] == Failed
                                        && !Succeeds(futures[outcome.i].opts, raised[outcome.i])
                                        && forall i :: 0 <= i < outcome.i ==> results[i] == Done
    {
      var left := patience;
      while |results| < |futures| && left > 0
        invariant Valid() && old(results) <= results
        decreases |futures| - |results|
      {
        RunNext();
        left := left - 1;
      }
      if |results| < |futures| { return TimedOut; }
      for i := 0 to |results|
        invariant forall j :: 0 <= j < i ==> results[j] == Done
      {
        if results[i] == Failed { return FirstFailure(i); }
      }
      outcome := AllDone;
    }
  }

  lemma {:induction false} NothingGone(start: Files, ts: seq<Task>, phases: seq<Phase>)
    requires |ts| == |phases|
    ensures start.Keys <= OneByOne(start, ts, phases).Keys
    decreases |ts|
  {
    if ts != [] { NothingGone(start, ts[..|ts| - 1], phases[..|ts| - 1]); }
  }

  lemma OneMore(start: Files, before: Files, after: Files, ts: seq<Task>, i: nat, done: seq<Phase>, ok: bool)
    requires i < |ts| && |done| == i && Proper(ts[i])
    requires SameNamed(start, before, OneByOne(start, ts[..i], done))
    requires var t := ts[i];
      && (ok && t.src == t.dst ==> after == before)
      && (ok && t.src != t.dst ==> t.src in before && after == before[t.dst := before[t.src]])
      && (!ok ==> forall p: Path :: p.Named? || p in before ==>
            (p in after <==> p in before) && (p in after ==> after[p] == before[p]))
    ensures SameNamed(start, after, OneByOne(start, ts[..i + 1], done + [if ok then Done else Failed]))
  {
    var t := ts[i];
    var result := if ok then Done else Failed;
    assert ts[..i + 1][..i] == ts[..i] && (done + [result])[..i] == done;
    var mid := OneByOne(start, ts[..i], done);
    var end := OneByOne(start, ts[..i + 1], done + [result]);
    assert end == if result == Done && t.src in mid then mid[t.dst := mid[t.src]] else mid;
    NothingGone(start, ts[..i], done);
    hide OneByOne;
    if ok && t.src == t.dst && t.src in mid { assert mid[t.dst := mid[t.src]] == mid; }
  }
}
