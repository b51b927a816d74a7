/** The emulator job protocol: what can still happen. Runs are continued step by
    step, which shows exactly when another job can be handed out, and exactly when
    two containers can come to share a lease. */
module EmulatorRuns {
  import opened EmulatorProtocol
  import opened JobQueue
  import opened Leases

  function Last(tr: seq<Sys>): Sys
    requires tr != []
  { tr[|tr| - 1] }

  /** A run, and the same run continued. */
  ghost predicate Goes(n: nat, tr: seq<Sys>, tr': seq<Sys>) { Run(n, tr) && Run(n, tr') && tr <= tr' }

  lemma Extend(n: nat, tr: seq<Sys>, s': Sys) returns (tr': seq<Sys>)
    requires Run(n, tr) && Next(Last(tr), s')
    ensures Goes(n, tr, tr') && Last(tr') == s'
  {
    tr' := tr + [s'];
    hide Next, Start;
    forall i | 0 <= i < |tr'| - 1 ensures Next(tr'[i], tr'[i + 1]) {
      if i < |tr| - 1 { assert Next(tr[i], tr[i + 1]); }
    }
  }

  /** The daemon or a worker makes one step. */
  lemma Consumes(n: nat, tr: seq<Sys>, db': Db, c': Consumer) returns (tr': seq<Sys>)
    requires Run(n, tr) && ConsumerStep(Last(tr).db, Last(tr).cons, db', c')
    ensures Goes(n, tr, tr') && Last(tr') == Last(tr).(db := db', cons := c')
  {
    hide ConsumerStep, Start;
    tr' := Extend(n, tr, Last(tr).(db := db', cons := c'));
  }

  // ----- workers come to an end -----

  predicate Over(w: Worker) { w.phase.Dead? || w.phase.Gone? }

  /** How many steps a worker still makes. */
  function ToGo(w: Worker): nat {
    match w.phase
    case Cleaning(_, _) => 6
    case Running(_, _) => if w.box == NoBox then 5 else 4
    case Torn(_, _) => 3
    case Marked(_, _) => 2
    case IpReturned(_) => 1
    case _ => 0
  }

  /** The worker makes its next step, without dying; its container is made and
      never removed. */
  lemma WorkerMoves(db: Db, c: Consumer, k: nat) returns (db': Db, c': Consumer)
    requires k < |c.workers| && !Over(c.workers[k])
    ensures WorkerStep(db, c, k, db', c') && c'.daemon == c.daemon
    ensures c'.workers == c.workers[k := c'.workers[k]] && ToGo(c'.workers[k]) < ToGo(c.workers[k])
    ensures !c'.workers[k].phase.Dead? && (c.workers[k].phase.Torn? || db' == db)
    ensures c.workers[k].phase.Running? && c.workers[k].box.Box? ==> c'.workers[k].box == c.workers[k].box
    ensures !c.workers[k].phase.Running? ==> c'.workers[k].box == c.workers[k].box
    ensures c'.workers[k].phase.Torn? ==> c'.workers[k].box.Box?
  {
    hide SetStatus;
    var w := c.workers[k];
    db', c' := db, c;
    match w.phase {
      case Cleaning(ip, block) =>
        c' := c.(workers := c.workers[k := w.(phase := Running(ip, block))]);
      case Running(ip, block) =>
        c' := c.(workers := c.workers[k := if w.box == NoBox then w.(box := Box(ip, block))
                                           else w.(phase := Torn(ip, block))]);
      case Torn(ip, block) =>
        db' := SetStatus(db, w.job.id, Completed);
        c' := c.(workers := c.workers[k := w.(phase := Marked(ip, block))]);
      case Marked(ip, block) =>
        c' := c.(ips := c.ips + [ip], workers := c.workers[k := w.(phase := IpReturned(block))]);
      case IpReturned(block) =>
        c' := c.(ports := c.ports + [block], workers := c.workers[k := w.(phase := Gone)]);
    }
  }

  /** Only worker `k` has changed, and it is over, dead only if it was; a container
      that was still to come is left behind. */
  ghost predicate Finished(c: Consumer, k: nat, c': Consumer)
    requires k < |c.workers|
  {
    && c'.daemon == c.daemon && |c'.workers| == |c.workers|
    && c'.workers == c.workers[k := c'.workers[k]]
    && Over(c'.workers[k])
    && (Over(c.workers[k]) ==> c' == c)
    && (c'.workers[k].phase.Dead? <==> c.workers[k].phase.Dead?)
    && (if ToGo(c.workers[k]) > 3 then c'.workers[k].box.Box? else c'.workers[k].box == c.workers[k].box)
  }

  lemma {:induction false} FinishWorker(n: nat, tr: seq<Sys>, k: nat) returns (tr': seq<Sys>)
    requires Run(n, tr) && k < |Last(tr).cons.workers|
    ensures Goes(n, tr, tr') && Finished(Last(tr).cons, k, Last(tr').cons)
    decreases ToGo(Last(tr).cons.workers[k])
  {
    var c := Last(tr).cons;
    if Over(c.workers[k]) {
      tr' := tr;
    } else {
      var db1, c1 := WorkerMoves(Last(tr).db, c, k);
      hide WorkerStep, Start, Next;
      var tr1 := Consumes(n, tr, db1, c1);
      tr' := FinishWorker(n, tr1, k);
    }
  }

  lemma {:induction false} DeadSame(ws: seq<Worker>, k: nat, w: Worker)
    requires k < |ws| && (ws[k].phase.Dead? <==> w.phase.Dead?)
    ensures DeadCount(ws[k := w]) == DeadCount(ws)
    decreases |ws|
  {
    var m := |ws| - 1;
    if k < m {
      DeadSame(ws[..m], k, w);
      assert ws[k := w][..m] == ws[..m][k := w];
    } else {
      assert ws[k := w][..m] == ws[..m];
    }
  }

  /** All workers are over, from the first to the last. */
  lemma {:induction false} FinishAll(n: nat, tr: seq<Sys>, k: nat) returns (tr': seq<Sys>)
    requires Run(n, tr) && k <= |Last(tr).cons.workers|
    requires forall j :: 0 <= j < k ==> Over(Last(tr).cons.workers[j])
    ensures Goes(n, tr, tr') && Last(tr').cons.daemon == Last(tr).cons.daemon
    ensures forall w <- Last(tr').cons.workers :: Over(w)
    ensures DeadCount(Last(tr').cons.workers) == DeadCount(Last(tr).cons.workers)
    ensures (forall w <- Last(tr).cons.workers :: Over(w)) ==> Last(tr').cons == Last(tr).cons
    decreases |Last(tr).cons.workers| - k
  {
    var c := Last(tr).cons;
    if k == |c.workers| {
      tr' := tr;
    } else {
      hide Start, Next;
      var tr1 := FinishWorker(n, tr, k);
      DeadSame(c.workers, k, Last(tr1).cons.workers[k]);
      hide DeadCount;
      tr' := FinishAll(n, tr1, k + 1);
    }
  }

  // ----- the daemon comes back to the top -----

  function DaemonToGo(d: Daemon): nat {
    match d
    case AtTop => 0
    case IpSeen => 6
    case BothSeen => 5
    case Fetched(_) => 4
    case HasIp(_, _) => 3
    case HasBoth(_, _, _) => 2
  }

  lemma OldestPending(db: Db) returns (i: nat)
    requires !NonePending(db)
    ensures MayFetch(db, i)
  {
    i :| 0 <= i < |db.rows| && db.rows[i].status == Pending;
    for k := 0 to |db.rows|
      invariant i < |db.rows| && db.rows[i].status == Pending
      invariant forall j :: 0 <= j < k && db.rows[j].status == Pending ==> db.rows[i].createdAt <= db.rows[j].createdAt
    {
      if db.rows[k].status == Pending && db.rows[k].createdAt < db.rows[i].createdAt { i := k; }
    }
  }

  /** The daemon takes what it is about to take, and the worker it starts is alive. */
  lemma DaemonMoves(db: Db, c: Consumer) returns (db': Db, c': Consumer)
    requires Ready(c) && c.daemon != AtTop
    ensures DaemonStep(db, c, db', c') && DaemonToGo(c'.daemon) < DaemonToGo(c.daemon)
    ensures DeadCount(c'.workers) == DeadCount(c.workers)
  {
    hide MayFetch, NonePending, SetAt;
    db', c' := db, c;
    match c.daemon {
      case IpSeen => c' := c.(daemon := if c.ports != [] then BothSeen else AtTop);
      case BothSeen =>
        if NonePending(db) {
          c' := c.(daemon := AtTop);
        } else {
          var i := OldestPending(db);
          assert i < |db.rows| by { FetchInRange(db, i); }
          db', c' := SetAt(db, i, Processing), c.(daemon := Fetched(Job(db.rows[i].id, db.rows[i].createdAt)));
          assert Fetches(db, c, i, db', c');
        }
      case Fetched(job) => c' := c.(ips := c.ips[1..], daemon := HasIp(job, c.ips[0]));
      case HasIp(job, ip) => c' := c.(ports := c.ports[1..], daemon := HasBoth(job, ip, c.ports[0]));
      case HasBoth(job, ip, block) =>
        c' := c.(daemon := AtTop, workers := c.workers + [Worker(job, Cleaning(ip, block), NoBox)]);
        assert c'.workers[..|c.workers|] == c.workers;
    }
  }

  lemma FetchInRange(db: Db, i: nat)
    requires MayFetch(db, i)
    ensures i < |db.rows|
  {}

  lemma {:induction false} DaemonToTop(n: nat, tr: seq<Sys>) returns (tr': seq<Sys>)
    requires Run(n, tr)
    ensures Goes(n, tr, tr') && Last(tr').cons.daemon == AtTop
    ensures DeadCount(Last(tr').cons.workers) == DeadCount(Last(tr).cons.workers)
    decreases DaemonToGo(Last(tr).cons.daemon)
  {
    var s := Last(tr);
    if s.cons.daemon == AtTop {
      tr' := tr;
    } else {
      RunLease(n, tr, |tr| - 1);
      var db1, c1 := DaemonMoves(s.db, s.cons);
      hide Start, Next, DaemonStep, WorkerStep, Conserved, JobsInv, Valid, DeadCount, Ready;
      var tr1 := Consumes(n, tr, db1, c1);
      tr' := DaemonToTop(n, tr1);
    }
  }

  // ----- one more job -----

  lemma {:induction false} HeldWhenOver<R>(of: Worker -> multiset<R>, ws: seq<Worker>)
    requires forall w <- ws :: |of(w)| == if w.phase.Dead? then 1 else 0
    ensures |Held(of, ws)| == DeadCount(ws)
    decreases |ws|
  {
    if ws != [] {
      var m := |ws| - 1;
      assert forall w <- ws[..m] :: w in ws;
      HeldWhenOver(of, ws[..m]);
      assert ws[m] in ws;
    }
  }

  /** With all workers over, what is not held by the dead is in the pools. */
  lemma PoolsLeft(n: nat, c: Consumer)
    requires Conserved(n, c) && c.daemon == AtTop && forall w <- c.workers :: Over(w)
    ensures |c.ips| == n - DeadCount(c.workers) == |c.ports|
  {
    forall w ensures Over(w) ==> |IpOf(w)| == |PortsOf(w)| == if w.phase.Dead? then 1 else 0 { OverHolds(w); }
    hide Held, DeadCount, IpOf, PortsOf, Over, InitIps, InitPorts;
    HeldWhenOver(IpOf, c.workers);
    HeldWhenOver(PortsOf, c.workers);
    assert |InitIps(n)| == n && |InitPorts(n)| == n by { InitLengths(n); }
    LeftInPool(c.ips, Held(IpOf, c.workers), InitIps(n));
    LeftInPool(c.ports, Held(PortsOf, c.workers), InitPorts(n));
  }

  lemma LeftInPool<R>(pool: seq<R>, held: multiset<R>, init: seq<R>)
    requires multiset(pool) + multiset{} + held == multiset(init)
    ensures |pool| + |held| == |init|
  {
    assert multiset(pool) + multiset{} + held == multiset(pool) + held;
    assert |multiset(pool) + held| == |pool| + |held|;
    assert |multiset(init)| == |init|;
  }

  lemma InitLengths(n: nat)
    ensures |InitIps(n)| == n == |InitPorts(n)|
  {}

  lemma OverHolds(w: Worker)
    ensures Over(w) ==> |IpOf(w)| == |PortsOf(w)| == if w.phase.Dead? then 1 else 0
  {}

  /** Somebody pushes a job. */
  lemma PushOne(n: nat, tr: seq<Sys>) returns (tr': seq<Sys>)
    requires Run(n, tr)
    ensures Goes(n, tr, tr') && Last(tr').cons == Last(tr).cons && !NonePending(Last(tr').db)
  {
    var s := Last(tr);
    var s' := s.(db := Push(s.db, "", s.clock));
    assert Pushed(s.db, s.clock, s'.db);
    hide Start, ProducerStep, ConsumerStep;
    tr' := Extend(n, tr, s');
    assert s'.db.rows[|s.db.rows|].status == Pending;
  }

  /** From the top, with leases in the pools and a job pending, the daemon fetches. */
  lemma FetchFromTop(n: nat, tr: seq<Sys>) returns (tr': seq<Sys>)
    requires Run(n, tr) && Last(tr).cons.daemon == AtTop && !NonePending(Last(tr).db)
    requires Last(tr).cons.ips != [] && Last(tr).cons.ports != []
    ensures Goes(n, tr, tr') && Last(tr').cons.daemon.Fetched?
    ensures Last(tr').cons == Last(tr).cons.(daemon := Last(tr').cons.daemon)
  {
    hide Start, Next, MayFetch, NonePending, SetAt;
    var db, c := Last(tr).db, Last(tr).cons;
    var c1, c2 := c.(daemon := IpSeen), c.(daemon := BothSeen);
    assert Looks(db, c, c1) && Looks(db, c1, c2);
    tr' := Consumes(n, tr, db, c1);
    tr' := Consumes(n, tr', db, c2);
    var i := OldestPending(db);
    FetchInRange(db, i);
    var c3 := c.(daemon := Fetched(Job(db.rows[i].id, db.rows[i].createdAt)));
    assert Fetches(db, c2, i, SetAt(db, i, Processing), c3);
    tr' := Consumes(n, tr', SetAt(db, i, Processing), c3);
  }

  /** As long as not all leases are with the dead, another job can be fetched. */
  lemma ServeIdle(n: nat, tr: seq<Sys>) returns (tr': seq<Sys>)
    requires Run(n, tr) && Last(tr).cons.daemon == AtTop && forall w <- Last(tr).cons.workers :: Over(w)
    requires DeadCount(Last(tr).cons.workers) < n
    ensures Goes(n, tr, tr') && Last(tr').cons.daemon.Fetched?
    ensures Last(tr').cons == Last(tr).cons.(daemon := Last(tr').cons.daemon)
  {
    RunLease(n, tr, |tr| - 1);
    PoolsLeft(n, Last(tr).cons);
    hide Start, Next, Conserved, JobsInv, Valid, DeadCount, Ready;
    tr' := PushOne(n, tr);
    tr' := FetchFromTop(n, tr');
  }

  lemma Serve(n: nat, tr: seq<Sys>) returns (tr': seq<Sys>)
    requires Run(n, tr) && DeadCount(Last(tr).cons.workers) < n
    ensures Goes(n, tr, tr') && Last(tr').cons.daemon.Fetched? && |Handed(Last(tr').cons)| > |Handed(Last(tr).cons)|
  {
    hide Start, Next, DeadCount;
    var tr1 := DaemonToTop(n, tr);
    var tr2 := FinishAll(n, tr1, 0);
    tr' := ServeIdle(n, tr2);
    HandedGrows(n, tr2, |tr| - 1, |tr2| - 1);
  }

  lemma HandedOnce(s: Sys, s': Sys)
    requires Next(s, s')
    ensures |Handed(s.cons)| <= |Handed(s'.cons)|
  {
    HandedStep(s, s');
    hide Next;
    if i: nat :| Fetches(s.db, s.cons, i, s'.db, s'.cons) { FetchHanded(s.db, s.cons, i, s'.db, s'.cons); }
  }

  lemma HandedAt(n: nat, tr: seq<Sys>, i: nat)
    requires Run(n, tr) && i + 1 < |tr|
    ensures |Handed(tr[i].cons)| <= |Handed(tr[i + 1].cons)|
  {
    StepOf(n, tr, i);
    hide Run, Next, Handed;
    HandedOnce(tr[i], tr[i + 1]);
  }

  lemma {:induction false} HandedGrows(n: nat, tr: seq<Sys>, i: nat, j: nat)
    requires Run(n, tr) && i <= j < |tr|
    ensures |Handed(tr[i].cons)| <= |Handed(tr[j].cons)|
    decreases j
  {
    hide Run, Handed;
    if i < j {
      HandedGrows(n, tr, i, j - 1);
      HandedAt(n, tr, j - 1);
    }
  }

  /** Some continuation of the run hands out another job. */
  ghost predicate ServedAgain(n: nat, tr: seq<Sys>)
    requires tr != []
  {
    exists tr' :: Goes(n, tr, tr') && |Handed(Last(tr').cons)| > |Handed(Last(tr).cons)|
  }

  /** From any reachable state another job can be handed out exactly if fewer workers
      have died than there are leases. */
  lemma ServedAgainExactly(n: nat, tr: seq<Sys>)
    requires Run(n, tr)
    ensures ServedAgain(n, tr) <==> DeadCount(Last(tr).cons.workers) < n
  {
    if DeadCount(Last(tr).cons.workers) < n {
      var tr' := Serve(n, tr);
    } else {
      hide Start, Next, DeadCount, Handed;
      forall tr' | Goes(n, tr, tr') ensures Handed(Last(tr').cons) == Handed(Last(tr).cons) {
        DeadWorkersStarveQueue(n, tr', |tr| - 1, |tr'| - 1);
      }
    }
  }

  // ----- a run in which all leases die -----

  /** The daemon starts a worker for the job it has fetched. */
  lemma SpawnFetched(n: nat, tr: seq<Sys>) returns (tr': seq<Sys>)
    requires Run(n, tr) && Last(tr).cons.daemon.Fetched?
    ensures Goes(n, tr, tr') && Last(tr').cons.daemon == AtTop
    ensures var ws, ws' := Last(tr).cons.workers, Last(tr').cons.workers;
            |ws'| == |ws| + 1 && ws' == ws + [ws'[|ws|]] && ws'[|ws|].phase.Cleaning? && ws'[|ws|].box == NoBox
  {
    RunLease(n, tr, |tr| - 1);
    var db, c := Last(tr).db, Last(tr).cons;
    hide Start, Next, Conserved, JobsInv, Valid;
    var c1 := c.(ips := c.ips[1..], daemon := HasIp(c.daemon.job, c.ips[0]));
    var c2 := c1.(ports := c1.ports[1..], daemon := HasBoth(c.daemon.job, c.ips[0], c1.ports[0]));
    var c3 := c2.(daemon := AtTop,
                  workers := c2.workers + [Worker(c.daemon.job, Cleaning(c.ips[0], c.ports[0]), NoBox)]);
    assert TakesIp(c, c1) && TakesPorts(c1, c2) && Spawns(c2, c3);
    tr' := Consumes(n, tr, db, c1);
    tr' := Consumes(n, tr', db, c2);
    tr' := Consumes(n, tr', db, c3);
  }

  /** The cleaning before its `try` raises. */
  lemma CleaningRaises(n: nat, tr: seq<Sys>, k: nat) returns (tr': seq<Sys>)
    requires Run(n, tr) && k < |Last(tr).cons.workers| && Last(tr).cons.workers[k].phase.Cleaning?
    ensures Goes(n, tr, tr') && Last(tr').cons.daemon == Last(tr).cons.daemon
    ensures |Last(tr').cons.workers| == |Last(tr).cons.workers| && Last(tr').cons.workers[k].phase.Dead?
    ensures Last(tr').cons.workers == Last(tr).cons.workers[k := Last(tr').cons.workers[k]]
  {
    var db, c := Last(tr).db, Last(tr).cons;
    var w := c.workers[k];
    var c' := c.(workers := c.workers[k := w.(phase := Dead(w.phase.ip, w.phase.ports))]);
    assert WorkerStep(db, c, k, db, c');
    hide Start, Next, WorkerStep, DaemonStep;
    tr' := Consumes(n, tr, db, c');
  }

  lemma Started(n: nat) returns (tr: seq<Sys>)
    ensures Run(n, tr) && Last(tr).cons == Consumer(InitIps(n), InitPorts(n), AtTop, [])
  {
    tr := [Sys(0, Db([], 0), Producer([1], 0, 0, Building, [{}]), Consumer(InitIps(n), InitPorts(n), AtTop, []))];
  }

  ghost predicate AllDead(ws: seq<Worker>) { DeadCount(ws) == |ws| && forall w <- ws :: w.phase.Dead? }

  lemma OneMoreDead(ws: seq<Worker>, us: seq<Worker>)
    requires AllDead(ws) && us != [] && us[..|us| - 1] == ws && us[|us| - 1].phase.Dead?
    ensures AllDead(us)
  {
    assert forall w <- us :: w in ws || w == us[|us| - 1];
  }

  /** While leases are left, one more worker can start and die. */
  lemma OneDies(n: nat, tr: seq<Sys>) returns (tr': seq<Sys>)
    requires Run(n, tr) && Last(tr).cons.daemon == AtTop && AllDead(Last(tr).cons.workers)
    requires |Last(tr).cons.workers| < n
    ensures Run(n, tr') && Last(tr').cons.daemon == AtTop && AllDead(Last(tr').cons.workers)
    ensures |Last(tr').cons.workers| == |Last(tr).cons.workers| + 1
  {
    var ws := Last(tr).cons.workers;
    hide Start, Next, Run, DeadCount;
    tr' := ServeIdle(n, tr);
    hide AllDead, Over;
    tr' := SpawnFetched(n, tr');
    assert Last(tr').cons.workers[..|ws|] == ws;
    tr' := CleaningRaises(n, tr', |ws|);
    OneMoreDead(ws, Last(tr').cons.workers);
  }

  lemma {:induction false} Dying(n: nat, m: nat) returns (tr: seq<Sys>)
    requires m <= n
    ensures Run(n, tr) && Last(tr).cons.daemon == AtTop
    ensures |Last(tr).cons.workers| == m && AllDead(Last(tr).cons.workers)
    decreases m
  {
    if m == 0 {
      tr := Started(n);
    } else {
      hide Run, AllDead;
      tr := Dying(n, m - 1);
      tr := OneDies(n, tr);
    }
  }

  /** For any number of leases there is a run in which they all die in the cleaning
      while a job is pending; it is never handed out. */
  lemma StarvingRun(n: nat) returns (tr: seq<Sys>)
    ensures Run(n, tr) && !NonePending(Last(tr).db)
    ensures DeadCount(Last(tr).cons.workers) == n && !ServedAgain(n, tr)
  {
    tr := Dying(n, n);
    hide Start, Next, NonePending, DeadCount, ServedAgain;
    tr := PushOne(n, tr);
    ServedAgainExactly(n, tr);
  }

  // ----- containers -----

  /** A container was made with the lease of its worker, out of the pools. */
  ghost predicate BoxOfLease(n: nat, w: Worker) {
    w.box.Box? ==>
      && !w.phase.Cleaning?
      && (!w.phase.IpReturned? && !w.phase.Gone? ==> w.box.ip == w.phase.ip)
      && (!w.phase.Gone? ==> w.box.ports == w.phase.ports)
      && w.box.ip in InitIps(n)
  }

  lemma BoxWorks(n: nat, db: Db, ips: seq<Ip>, ports: seq<Ports>, w: Worker,
                 db': Db, ips': seq<Ip>, ports': seq<Ports>, w': Worker)
    requires Works(db, ips, ports, w, db', ips', ports', w') && BoxOfLease(n, w)
    requires w.phase.Running? ==> w.phase.ip in InitIps(n)
    ensures BoxOfLease(n, w')
  {
    hide SetStatus, InitIps;
  }

  lemma LeaseInPool(n: nat, c: Consumer, k: nat)
    requires Conserved(n, c) && k < |c.workers| && c.workers[k].phase.Running?
    ensures c.workers[k].phase.ip in InitIps(n)
  {
    HeldAt(IpOf, c.workers, k);
    hide Held, AllPorts;
    var ip := c.workers[k].phase.ip;
    assert IpOf(c.workers[k])[ip] == 1;
    assert multiset(InitIps(n))[ip] >= 1;
  }

  lemma BoxStep(n: nat, s: Sys, s': Sys)
    requires Next(s, s') && Conserved(n, s.cons) && forall w <- s.cons.workers :: BoxOfLease(n, w)
    ensures forall w <- s'.cons.workers :: BoxOfLease(n, w)
  {
    hide Pushed, ProducerStep, Works, Conserved, MayFetch, NonePending, SetAt, InitIps;
    var c, c' := s.cons, s'.cons;
    if k: nat :| WorkerStep(s.db, c, k, s'.db, c') {
      if c.workers[k].phase.Running? { LeaseInPool(n, c, k); }
      assert c.workers[k] in c.workers;
      BoxWorks(n, s.db, c.ips, c.ports, c.workers[k], s'.db, c'.ips, c'.ports, c'.workers[k]);
      hide BoxOfLease;
      assert forall j :: 0 <= j < |c'.workers| && j != k ==> c'.workers[j] == c.workers[j] && c.workers[j] in c.workers;
    }
  }

  lemma BoxAt(n: nat, tr: seq<Sys>, i: nat)
    requires Run(n, tr) && i + 1 < |tr| && forall w <- tr[i].cons.workers :: BoxOfLease(n, w)
    ensures forall w <- tr[i + 1].cons.workers :: BoxOfLease(n, w)
  {
    RunLease(n, tr, i);
    StepOf(n, tr, i);
    hide Run, Next, Conserved, JobsInv, Valid, BoxOfLease, Ready;
    BoxStep(n, tr[i], tr[i + 1]);
  }

  lemma {:induction false} RunBox(n: nat, tr: seq<Sys>, i: nat)
    requires Run(n, tr) && i < |tr|
    ensures forall w <- tr[i].cons.workers :: BoxOfLease(n, w)
    decreases i
  {
    if i > 0 {
      hide Run, BoxOfLease;
      RunBox(n, tr, i - 1);
      BoxAt(n, tr, i - 1);
    }
  }

  /** Two containers were made with the same address or a common host port. */
  ghost predicate Share(v: Worker, w: Worker) {
    && v.box.Box? && w.box.Box?
    && (v.box.ip == w.box.ip || !(HostPorts(v.box.ports) !! HostPorts(w.box.ports)))
  }

  /** The container is still there, its lease has been given back in part or whole. */
  predicate Outlived(w: Worker) { w.box.Box? && (w.phase.IpReturned? || w.phase.Gone?) }

  /** In every reachable state: if two containers share something, one of them has
      outlived its lease. */
  lemma SharingNeedsOutlived(n: nat, tr: seq<Sys>, i: nat, j: nat, k: nat)
    requires Run(n, tr) && i < |tr| && n <= 555 && j < k < |tr[i].cons.workers|
    ensures var ws := tr[i].cons.workers; Share(ws[j], ws[k]) ==> Outlived(ws[j]) || Outlived(ws[k])
  {
    LeaseSafety(n, tr, i);
    RunBox(n, tr, i);
    var v, w := tr[i].cons.workers[j], tr[i].cons.workers[k];
    hide Run, AllIps, AllPorts, Handed;
    assert BoxOfLease(n, v) && BoxOfLease(n, w) && Apart(v, w);
    hide HostPorts, InitIps;
    if v.box.Box? && w.box.Box? && !Outlived(v) && !Outlived(w) {
      assert v.box.ip in IpOf(v) && w.box.ip in IpOf(w);
      assert v.box.ports in PortsOf(v) && w.box.ports in PortsOf(w);
    }
  }

  /** Whatever attempt to remove a container this step ends has succeeded. */
  ghost predicate Removes(s: Sys, s': Sys) {
    var ws, ws' := s.cons.workers, s'.cons.workers;
    forall k :: 0 <= k < |ws| && k < |ws'| && ws[k].phase.Running? && ws'[k].phase.Torn? ==> ws'[k].box == NoBox
  }

  /** `tidy`: containers can always be removed. */
  ghost predicate RunOf(n: nat, tidy: bool, tr: seq<Sys>) {
    Run(n, tr) && (tidy ==> forall i :: 0 <= i < |tr| - 1 ==> Removes(tr[i], tr[i + 1]))
  }

  predicate HasLease(w: Worker) { w.box.Box? ==> w.phase.Running? || w.phase.Dead? }

  lemma TidyStep(s: Sys, s': Sys)
    requires Next(s, s') && Removes(s, s') && forall w <- s.cons.workers :: HasLease(w)
    ensures forall w <- s'.cons.workers :: HasLease(w)
  {
    hide Pushed, ProducerStep, MayFetch, NonePending, SetAt, SetStatus;
    var c, c' := s.cons, s'.cons;
    if k: nat :| WorkerStep(s.db, c, k, s'.db, c') {
      assert c.workers[k] in c.workers;
      assert HasLease(c'.workers[k]);
      hide Works;
      assert forall j :: 0 <= j < |c'.workers| && j != k ==> c'.workers[j] == c.workers[j] && c.workers[j] in c.workers;
    }
  }

  lemma TidyStepOf(n: nat, tr: seq<Sys>, i: nat)
    requires RunOf(n, true, tr) && i + 1 < |tr|
    ensures Next(tr[i], tr[i + 1]) && Removes(tr[i], tr[i + 1])
  {
    hide Next, Removes, Start;
  }

  lemma {:induction false} TidyRun(n: nat, tr: seq<Sys>, i: nat)
    requires RunOf(n, true, tr) && i < |tr|
    ensures forall w <- tr[i].cons.workers :: HasLease(w)
    decreases i
  {
    if i > 0 {
      hide RunOf, Next, Removes, HasLease;
      TidyRun(n, tr, i - 1);
      TidyStepOf(n, tr, i - 1);
      TidyStep(tr[i - 1], tr[i]);
    }
  }

  lemma {:induction false} NoneDead(ws: seq<Worker>)
    requires forall w <- ws :: !w.phase.Dead?
    ensures DeadCount(ws) == 0
    decreases |ws|
  {
    if ws != [] {
      var m := |ws| - 1;
      assert forall w <- ws[..m] :: w in ws;
      NoneDead(ws[..m]);
      assert ws[m] in ws;
    }
  }

  /** One job after the other, and every container is left behind. */
  lemma {:induction false} Leaving(n: nat, m: nat) returns (tr: seq<Sys>)
    requires n > 0
    ensures Run(n, tr) && Last(tr).cons.daemon == AtTop && |Last(tr).cons.workers| == m
    ensures forall w <- Last(tr).cons.workers :: w.phase.Gone? && w.box.Box?
    decreases m
  {
    if m == 0 {
      tr := Started(n);
    } else {
      tr := Leaving(n, m - 1);
      var ws := Last(tr).cons.workers;
      NoneDead(ws);
      hide Start, Next, DeadCount;
      tr := ServeIdle(n, tr);
      tr := SpawnFetched(n, tr);
      ghost var c := Last(tr).cons;
      tr := FinishWorker(n, tr, m - 1);
      ghost var c' := Last(tr).cons;
      assert forall j :: 0 <= j < m - 1 ==> c'.workers[j] == ws[j] && ws[j] in ws;
    }
  }

  lemma {:induction false} TwoAlike(ips: seq<Ip>, pool: set<Ip>) returns (j: nat, k: nat)
    requires |ips| > |pool| && forall x <- ips :: x in pool
    ensures j < k < |ips| && ips[j] == ips[k]
    decreases |ips|
  {
    var m := |ips| - 1;
    if i :| 0 <= i < m && ips[i] == ips[m] {
      j, k := i, m;
    } else {
      assert ips[m] in pool;
      forall x <- ips[..m] ensures x in pool - {ips[m]} { assert x in ips; }
      j, k := TwoAlike(ips[..m], pool - {ips[m]});
    }
  }

  function Addresses(n: nat): set<Ip> { set i: nat | i < n :: IpAt(i) }

  lemma {:induction false} PoolSize(n: nat)
    ensures |Addresses(n)| <= n && forall x <- InitIps(n) :: x in Addresses(n)
  {
    if n > 0 {
      PoolSize(n - 1);
      assert Addresses(n) == Addresses(n - 1) + {IpAt(n - 1)};
    }
  }

  /** With one container more than there are leases, two were made with the same
      address. */
  lemma CrowdedRun(n: nat) returns (tr: seq<Sys>, j: nat, k: nat)
    requires n > 0
    ensures Run(n, tr) && j < k < |Last(tr).cons.workers| && Share(Last(tr).cons.workers[j], Last(tr).cons.workers[k])
  {
    tr := Leaving(n, n + 1);
    RunBox(n, tr, |tr| - 1);
    PoolSize(n);
    var ws := Last(tr).cons.workers;
    hide Run, InitIps, Addresses;
    assert forall i :: 0 <= i < |ws| ==> ws[i] in ws;
    var ips: seq<Ip> := seq(|ws|, i requires 0 <= i < |ws| => ws[i].box.ip);
    j, k := TwoAlike(ips, Addresses(n));
  }

  lemma RunNonEmpty(n: nat, tr: seq<Sys>)
    requires Run(n, tr)
    ensures tr != []
  {}

  /** With up to 555 leases, no two containers that exist at the same time, running or
      stopped, were ever made with a common address or host port exactly if containers
      can always be removed. */
  lemma SharingExactly(n: nat, tidy: bool)
    requires 0 < n <= 555
    ensures tidy <==> forall tr: seq<Sys>, i: nat, j: nat, k: nat ::
                        RunOf(n, tidy, tr) && i < |tr| && j < k < |tr[i].cons.workers| ==>
                          !Share(tr[i].cons.workers[j], tr[i].cons.workers[k])
  {
    hide Run, Removes;
    if tidy {
      forall tr: seq<Sys>, i: nat, j: nat, k: nat | RunOf(n, tidy, tr) && i < |tr| && j < k < |tr[i].cons.workers|
        ensures !Share(tr[i].cons.workers[j], tr[i].cons.workers[k])
      {
        TidyRun(n, tr, i);
        SharingNeedsOutlived(n, tr, i, j, k);
        hide Share;
        assert tr[i].cons.workers[j] in tr[i].cons.workers && tr[i].cons.workers[k] in tr[i].cons.workers;
      }
    } else {
      var tr, j, k := CrowdedRun(n);
      assert |tr| > 0 by { RunNonEmpty(n, tr); }
      var i: nat := |tr| - 1;
      assert RunOf(n, tidy, tr) && Share(tr[i].cons.workers[j], tr[i].cons.workers[k]);
    }
  }
}
