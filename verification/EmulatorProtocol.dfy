/** The emulator job protocol: the batch producer of
    create_docker_emulator_images.py, the daemon and the worker threads of
    consumer.py, and other producers, all on one job table. Every step below is
    one that no other thread can observe half done; they interleave freely. */
module EmulatorProtocol {
  import opened JobQueue
  import opened Leases
  import opened Options

  /** The batch loop of `main`: `queued[j]` holds the job ids of batch `j`. */
  datatype Stage = Building | HaveId(id: nat) | Waiting | Passed | Ended

  datatype Producer = Producer(sizes: seq<nat>, maxActive: nat, batch: nat, stage: Stage, queued: seq<set<nat>>)

  datatype Sys = Sys(clock: int, db: Db, prod: Producer, cons: Consumer)

  // ----- steps -----

  ghost predicate Pushed(db: Db, now: int, db': Db) { exists image :: db' == Push(db, image, now) }

  ghost predicate ProducerStep(now: int, db: Db, p: Producer, db': Db, p': Producer) {
    && p.batch < |p.sizes| && |p.queued| == p.batch + 1
    && match p.stage
       case Building =>
         || (|p.queued[p.batch]| < p.sizes[p.batch] && Pushed(db, now, db') && p' == p.(stage := HaveId(db'.lastId)))
         || (db' == db && p' == p.(stage := if p.batch + 1 < |p.sizes| then Waiting else Ended))
       case HaveId(id) =>
         db' == db && p' == p.(stage := Building, queued := p.queued[p.batch := p.queued[p.batch] + {id}])
       case Waiting =>
         db' == db && |ActiveIds(db) * p.queued[p.batch]| <= p.maxActive && p' == p.(stage := Passed)
       case Passed =>
         db' == db && p' == p.(stage := Building, batch := p.batch + 1, queued := p.queued + [{}])
       case Ended => false
  }

  /** The loop tests of the daemon, and a fetch that finds nothing. */
  ghost predicate Looks(db: Db, c: Consumer, c': Consumer) {
    && c' == c.(daemon := c'.daemon)
    && match c.daemon
       case AtTop => c.ips != [] && c'.daemon == IpSeen
       case IpSeen => c'.daemon == if c.ports != [] then BothSeen else AtTop
       case BothSeen => NonePending(db) && c'.daemon == AtTop
       case _ => false
  }

  ghost predicate Fetches(db: Db, c: Consumer, i: nat, db': Db, c': Consumer) {
    && c.daemon == BothSeen && MayFetch(db, i) && db' == SetAt(db, i, Processing)
    && c' == c.(daemon := Fetched(Job(db.rows[i].id, db.rows[i].createdAt)))
  }

  ghost predicate TakesIp(c: Consumer, c': Consumer) {
    && c.daemon.Fetched? && c.ips != []
    && c' == c.(ips := c.ips[1..], daemon := HasIp(c.daemon.job, c.ips[0]))
  }

  ghost predicate TakesPorts(c: Consumer, c': Consumer) {
    && c.daemon.HasIp? && c.ports != []
    && c' == c.(ports := c.ports[1..], daemon := HasBoth(c.daemon.job, c.daemon.ip, c.ports[0]))
  }

  ghost predicate Spawns(c: Consumer, c': Consumer) {
    && c.daemon.HasBoth?
    && c' == c.(daemon := AtTop,
                workers := c.workers + [Worker(c.daemon.job, Cleaning(c.daemon.ip, c.daemon.ports), NoBox)])
  }

  ghost predicate DaemonStep(db: Db, c: Consumer, db': Db, c': Consumer) {
    || (db' == db && (Looks(db, c, c') || TakesIp(c, c') || TakesPorts(c, c') || Spawns(c, c')))
    || exists i: nat :: Fetches(db, c, i, db', c')
  }

  /** Creating the container, the attempt to remove it, whose failure is only
      logged, or an exception that is not caught. */
  ghost predicate Runs(w: Worker, w': Worker) {
    && w.phase.Running?
    && var ip, block := w.phase.ip, w.phase.ports;
       || (w.box == NoBox && w' == w.(box := Box(ip, block)))
       || ((w'.box == w.box || w'.box == NoBox) && (w'.phase == Torn(ip, block) || w'.phase == Dead(ip, block)))
  }

  /** One step of a worker thread, with what it does to the pools and the table. */
  ghost predicate Works(db: Db, ips: seq<Ip>, ports: seq<Ports>, w: Worker,
                        db': Db, ips': seq<Ip>, ports': seq<Ports>, w': Worker) {
    && w'.job == w.job && (w.phase.Running? || w'.box == w.box)
    && match w.phase
       case Cleaning(ip, block) =>
         && db' == db && ips' == ips && ports' == ports
         && (w'.phase == Running(ip, block) || w'.phase == Dead(ip, block))
       case Running(_, _) => db' == db && ips' == ips && ports' == ports && Runs(w, w')
       case Torn(ip, block) =>
         && ips' == ips && ports' == ports
         && ((db' == SetStatus(db, w.job.id, Completed) && w'.phase == Marked(ip, block))
             || (db' == db && w'.phase == Dead(ip, block)))
       case Marked(ip, block) => db' == db && ips' == ips + [ip] && ports' == ports && w'.phase == IpReturned(block)
       case IpReturned(block) => db' == db && ips' == ips && ports' == ports + [block] && w'.phase == Gone
       case _ => false
  }

  ghost predicate WorkerStep(db: Db, c: Consumer, k: nat, db': Db, c': Consumer) {
    && k < |c.workers| == |c'.workers|
    && c' == c.(ips := c'.ips, ports := c'.ports, workers := c.workers[k := c'.workers[k]])
    && Works(db, c.ips, c.ports, c.workers[k], db', c'.ips, c'.ports, c'.workers[k])
  }

  ghost predicate ConsumerStep(db: Db, c: Consumer, db': Db, c': Consumer) {
    DaemonStep(db, c, db', c') || exists k: nat :: WorkerStep(db, c, k, db', c')
  }

  ghost predicate Next(s: Sys, s': Sys) {
    || (s' == s.(db := s'.db, prod := s'.prod) && ProducerStep(s.clock, s.db, s.prod, s'.db, s'.prod))
    || (s' == s.(db := s'.db, cons := s'.cons) && ConsumerStep(s.db, s.cons, s'.db, s'.cons))
    || (s' == s.(db := s'.db) && Pushed(s.db, s.clock, s'.db)) // somebody else's job
    || s' == s.(clock := s'.clock)
  }

  /** The table may hold rows of earlier runs. */
  ghost predicate Start(n: nat, s: Sys) {
    && Valid(s.db)
    && s.prod.sizes != [] && s.prod.batch == 0 && s.prod.stage == Building && s.prod.queued == [{}]
    && s.cons == Consumer(InitIps(n), InitPorts(n), AtTop, [])
  }

  ghost predicate Run(n: nat, tr: seq<Sys>) {
    && tr != [] && Start(n, tr[0])
    && forall i :: 0 <= i < |tr| - 1 ==> Next(tr[i], tr[i + 1])
  }

  // ----- the table moves forward under every step -----

  /** What a step does to the table. */
  ghost predicate TableStep(now: int, db: Db, db': Db) {
    || db' == db
    || Pushed(db, now, db')
    || (exists i: nat :: MayFetch(db, i) && db' == SetAt(db, i, Processing))
    || (exists id: nat :: db' == SetStatus(db, id, Completed))
  }

  lemma NextTable(s: Sys, s': Sys)
    requires Next(s, s')
    ensures TableStep(s.clock, s.db, s'.db)
  {
    hide Pushed, MayFetch, SetAt, SetStatus;
  }

  lemma NextForward(s: Sys, s': Sys)
    requires Valid(s.db) && Next(s, s')
    ensures Valid(s'.db) && Forward(s.db, s'.db)
    ensures ActiveIds(s'.db) <= ActiveIds(s.db) + {s'.db.lastId}
    ensures s'.db.lastId == s.db.lastId ==> ActiveIds(s'.db) <= ActiveIds(s.db)
    ensures s'.db.lastId == s.db.lastId || s'.db.lastId == s.db.lastId + 1
  {
    NextTable(s, s');
    hide Next, SetAt, SetStatus, Push, Valid, ActiveIds, MayFetch;
    if image :| s'.db == Push(s.db, image, s.clock) {
      PushForward(s.db, image, s.clock);
    } else if i: nat :| MayFetch(s.db, i) && s'.db == SetAt(s.db, i, Processing) {
      FetchForward(s.db, i);
    } else if id: nat :| s'.db == SetStatus(s.db, id, Completed) {
      CompleteForward(s.db, id);
    }
  }

  lemma ForwardSame(db: Db)
    ensures Forward(db, db)
  {}

  lemma StepOf(n: nat, tr: seq<Sys>, i: nat)
    requires Run(n, tr) && i + 1 < |tr|
    ensures Next(tr[i], tr[i + 1])
  {
    hide Next, Start;
  }

  lemma {:induction false} RunValid(n: nat, tr: seq<Sys>, i: nat)
    requires Run(n, tr) && i < |tr|
    ensures Valid(tr[i].db)
    decreases i
  {
    if i > 0 {
      StepOf(n, tr, i - 1);
      hide Run, Next, Valid, Forward, ActiveIds;
      RunValid(n, tr, i - 1);
      NextForward(tr[i - 1], tr[i]);
    }
  }

  lemma {:induction false} RunForward(n: nat, tr: seq<Sys>, i: nat, j: nat)
    requires Run(n, tr) && i <= j < |tr|
    ensures Valid(tr[i].db) && Valid(tr[j].db) && Forward(tr[i].db, tr[j].db)
    decreases j
  {
    hide Run, Next, Valid, Forward, ActiveIds;
    if i == j {
      RunValid(n, tr, i);
      ForwardSame(tr[i].db);
    } else {
      StepOf(n, tr, j - 1);
      RunForward(n, tr, i, j - 1);
      NextForward(tr[j - 1], tr[j]);
      ForwardTransitive(tr[i].db, tr[j - 1].db, tr[j].db);
    }
  }

  lemma ForwardTransitive(a: Db, b: Db, c: Db)
    requires Forward(a, b) && Forward(b, c)
    ensures Forward(a, c)
  {
    forall i | |a.rows| <= i < |c.rows| ensures a.lastId < c.rows[i].id {
      if i < |b.rows| { assert c.rows[i].id == b.rows[i].id; }
    }
  }

  // ----- leases -----

  function DaemonJob(d: Daemon): seq<Job> { if d.Fetched? || d.HasIp? || d.HasBoth? then [d.job] else [] }

  /** All jobs ever handed out, in order. */
  function Handed(c: Consumer): seq<Job> {
    seq(|c.workers|, i requires 0 <= i < |c.workers| => c.workers[i].job) + DaemonJob(c.daemon)
  }

  /** What the emptiness checks promise until the leases are taken. */
  ghost predicate Ready(c: Consumer) {
    match c.daemon
    case IpSeen => c.ips != []
    case BothSeen => c.ips != [] && c.ports != []
    case Fetched(_) => c.ips != [] && c.ports != []
    case HasIp(_, _) => c.ports != []
    case _ => true
  }

  /** A handed-out job is known to the table and pending no more. */
  ghost predicate Taken(db: Db, id: nat) {
    id <= db.lastId && forall i :: 0 <= i < |db.rows| && db.rows[i].id == id ==> db.rows[i].status != Pending
  }

  ghost predicate Distinct(js: seq<Job>) { forall i, j :: 0 <= i < j < |js| ==> js[i].id != js[j].id }

  ghost predicate JobsInv(db: Db, c: Consumer) {
    Distinct(Handed(c)) && forall h <- Handed(c) :: Taken(db, h.id)
  }

  lemma TakenStays(db: Db, db': Db, id: nat)
    requires Valid(db') && Forward(db, db') && Taken(db, id)
    ensures Taken(db', id)
  {
    forall i | 0 <= i < |db'.rows| && db'.rows[i].id == id ensures db'.rows[i].status != Pending {
      if i < |db.rows| { assert db.rows[i].id == id; }
    }
  }

  lemma TakeFirst<R>(pool: seq<R>, held: multiset<R>)
    requires pool != []
    ensures multiset(pool[1..]) + multiset{pool[0]} + held == multiset(pool) + multiset{} + held
  {
    assert pool == [pool[0]] + pool[1..];
  }

  lemma HandOver<R>(pool: multiset<R>, one: multiset<R>, held: multiset<R>)
    ensures pool + multiset{} + (held + one) == pool + one + held
  {}

  lemma TakesIpConserves(c: Consumer, c': Consumer)
    requires TakesIp(c, c')
    ensures AllIps(c') == AllIps(c) && AllPorts(c') == AllPorts(c)
  {
    TakeFirst(c.ips, Held(IpOf, c.workers));
    hide Held;
  }

  lemma TakesPortsConserves(c: Consumer, c': Consumer)
    requires TakesPorts(c, c')
    ensures AllIps(c') == AllIps(c) && AllPorts(c') == AllPorts(c)
  {
    TakeFirst(c.ports, Held(PortsOf, c.workers));
    hide Held;
  }

  lemma SpawnsConserves(c: Consumer, c': Consumer)
    requires Spawns(c, c')
    ensures AllIps(c') == AllIps(c) && AllPorts(c') == AllPorts(c)
  {
    var w := c'.workers[|c.workers|];
    HeldAdd(IpOf, c.workers, w);
    HeldAdd(PortsOf, c.workers, w);
    hide Held;
    HandOver(multiset(c.ips), multiset{c.daemon.ip}, Held(IpOf, c.workers));
    HandOver(multiset(c.ports), multiset{c.daemon.ports}, Held(PortsOf, c.workers));
  }

  /** What leaves one account arrives in the other. */
  lemma Balance<R>(p: multiset<R>, p': multiset<R>, d: multiset<R>, h: multiset<R>, h': multiset<R>,
                   o: multiset<R>, o': multiset<R>)
    requires p' + o' == p + o && h' + o == h + o'
    ensures p' + d + h' == p + d + h
  {
    forall x ensures (p' + d + h')[x] == (p + d + h)[x] {
      assert (p' + o')[x] == (p + o)[x] && (h' + o)[x] == (h + o')[x];
    }
  }

  /** A worker's step either leaves a pool alone or puts its one lease back. */
  ghost predicate Returns<R>(pool: seq<R>, mine: multiset<R>, pool': seq<R>, mine': multiset<R>) {
    || (pool' == pool && mine' == mine)
    || (|pool'| == |pool| + 1 && pool' == pool + [pool'[|pool|]]
        && mine == multiset{pool'[|pool|]} && mine' == multiset{})
  }

  lemma WorksReturnsIp(db: Db, ips: seq<Ip>, ports: seq<Ports>, w: Worker,
                       db': Db, ips': seq<Ip>, ports': seq<Ports>, w': Worker)
    requires Works(db, ips, ports, w, db', ips', ports', w')
    ensures Returns(ips, IpOf(w), ips', IpOf(w'))
  {
    hide SetStatus, PortsOf;
  }

  lemma WorksReturnsPorts(db: Db, ips: seq<Ip>, ports: seq<Ports>, w: Worker,
                          db': Db, ips': seq<Ip>, ports': seq<Ports>, w': Worker)
    requires Works(db, ips, ports, w, db', ips', ports', w')
    ensures Returns(ports, PortsOf(w), ports', PortsOf(w'))
  {
    hide SetStatus, IpOf;
  }

  lemma ReturnsConserves<R>(pool: seq<R>, mine: multiset<R>, pool': seq<R>, mine': multiset<R>)
    requires Returns(pool, mine, pool', mine')
    ensures multiset(pool') + mine' == multiset(pool) + mine && pool <= pool'
  {
    if pool' != pool { GiveBack(pool, pool'[|pool|]); }
  }

  lemma GiveBack<R>(pool: seq<R>, x: R)
    ensures multiset(pool + [x]) + multiset{} == multiset(pool) + multiset{x}
    ensures pool <= pool + [x]
  {}

  lemma WorkerConserves(db: Db, c: Consumer, k: nat, db': Db, c': Consumer)
    requires WorkerStep(db, c, k, db', c')
    ensures AllIps(c') == AllIps(c) && AllPorts(c') == AllPorts(c)
    ensures c.ips <= c'.ips && c.ports <= c'.ports && c'.daemon == c.daemon
  {
    var w, w' := c.workers[k], c'.workers[k];
    HeldUpdate(IpOf, c.workers, k, w');
    HeldUpdate(PortsOf, c.workers, k, w');
    WorksReturnsIp(db, c.ips, c.ports, w, db', c'.ips, c'.ports, w');
    WorksReturnsPorts(db, c.ips, c.ports, w, db', c'.ips, c'.ports, w');
    hide Works, Held, IpOf, PortsOf, Returns;
    ReturnsConserves(c.ips, IpOf(w), c'.ips, IpOf(w'));
    ReturnsConserves(c.ports, PortsOf(w), c'.ports, PortsOf(w'));
    Balance(multiset(c.ips), multiset(c'.ips), DaemonIp(c.daemon), Held(IpOf, c.workers), Held(IpOf, c'.workers),
            IpOf(w), IpOf(w'));
    Balance(multiset(c.ports), multiset(c'.ports), DaemonPorts(c.daemon), Held(PortsOf, c.workers),
            Held(PortsOf, c'.workers), PortsOf(w), PortsOf(w'));
  }

  ghost predicate SameLeases(c: Consumer, c': Consumer) { AllIps(c') == AllIps(c) && AllPorts(c') == AllPorts(c) }

  lemma LooksConserves(db: Db, c: Consumer, c': Consumer)
    requires Looks(db, c, c') && Ready(c)
    ensures SameLeases(c, c') && Ready(c')
  {
    hide Held, NonePending;
  }

  lemma FetchesConserves(db: Db, c: Consumer, i: nat, db': Db, c': Consumer)
    requires Fetches(db, c, i, db', c') && Ready(c)
    ensures SameLeases(c, c') && Ready(c')
  {
    hide Held, MayFetch;
  }

  lemma DaemonConserves(db: Db, c: Consumer, db': Db, c': Consumer)
    requires DaemonStep(db, c, db', c') && Ready(c)
    ensures SameLeases(c, c') && Ready(c')
  {
    hide Held, AllIps, AllPorts;
    if Looks(db, c, c') {
      LooksConserves(db, c, c');
    } else if TakesIp(c, c') {
      TakesIpConserves(c, c');
    } else if TakesPorts(c, c') {
      TakesPortsConserves(c, c');
    } else if Spawns(c, c') {
      SpawnsConserves(c, c');
    } else {
      var i: nat :| Fetches(db, c, i, db', c');
      FetchesConserves(db, c, i, db', c');
    }
  }

  /** No step creates or loses a lease, and what the daemon has seen stays. */
  lemma PoolStep(s: Sys, s': Sys)
    requires Next(s, s') && Ready(s.cons)
    ensures SameLeases(s.cons, s'.cons) && Ready(s'.cons)
  {
    hide Pushed, ProducerStep, DaemonStep, AllIps, AllPorts;
    var c, c' := s.cons, s'.cons;
    if k: nat :| WorkerStep(s.db, c, k, s'.db, c') {
      WorkerConserves(s.db, c, k, s'.db, c');
      hide WorkerStep;
    } else if DaemonStep(s.db, c, s'.db, c') {
      DaemonConserves(s.db, c, s'.db, c');
    }
  }

  lemma WorkerHanded(db: Db, c: Consumer, k: nat, db': Db, c': Consumer)
    requires WorkerStep(db, c, k, db', c')
    ensures Handed(c') == Handed(c)
  {
    hide SetStatus;
  }

  /** Only a fetch hands out a job. */
  lemma HandedStep(s: Sys, s': Sys)
    requires Next(s, s')
    ensures Handed(s'.cons) == Handed(s.cons) || exists i: nat :: Fetches(s.db, s.cons, i, s'.db, s'.cons)
  {
    hide Pushed, ProducerStep, MayFetch, NonePending, Works;
    if k: nat :| WorkerStep(s.db, s.cons, k, s'.db, s'.cons) {
      WorkerHanded(s.db, s.cons, k, s'.db, s'.cons);
    }
  }

  lemma FetchHanded(db: Db, c: Consumer, i: nat, db': Db, c': Consumer)
    requires Fetches(db, c, i, db', c')
    ensures Handed(c') == Handed(c) + [Job(db.rows[i].id, db.rows[i].createdAt)]
  {}

  lemma FetchTakes(db: Db, c: Consumer, i: nat, db': Db, c': Consumer)
    requires Valid(db) && JobsInv(db, c) && Fetches(db, c, i, db', c')
    ensures JobsInv(db', c')
  {
    FetchHanded(db, c, i, db', c');
    FetchForward(db, i);
    hide Handed, ActiveIds;
    forall h | h in Handed(c) ensures h.id != db.rows[i].id && Taken(db', h.id) {
      assert Taken(db, h.id);
      TakenStays(db, db', h.id);
    }
  }

  lemma JobsStep(s: Sys, s': Sys)
    requires Valid(s.db) && JobsInv(s.db, s.cons) && Next(s, s')
    ensures JobsInv(s'.db, s'.cons)
  {
    HandedStep(s, s');
    NextForward(s, s');
    hide Next, Handed, Taken, Valid, Forward;
    if i: nat :| Fetches(s.db, s.cons, i, s'.db, s'.cons) {
      FetchTakes(s.db, s.cons, i, s'.db, s'.cons);
    } else {
      forall h | h in Handed(s.cons) ensures Taken(s'.db, h.id) {
        TakenStays(s.db, s'.db, h.id);
      }
    }
  }

  lemma {:induction false} RunLease(n: nat, tr: seq<Sys>, i: nat)
    requires Run(n, tr) && i < |tr|
    ensures Conserved(n, tr[i].cons) && Ready(tr[i].cons)
    ensures Valid(tr[i].db) && JobsInv(tr[i].db, tr[i].cons)
    decreases i
  {
    if i > 0 {
      hide Run, Next, AllIps, AllPorts, JobsInv, Valid;
      RunLease(n, tr, i - 1);
      StepOf(n, tr, i - 1);
      PoolStep(tr[i - 1], tr[i]);
      JobsStep(tr[i - 1], tr[i]);
      NextForward(tr[i - 1], tr[i]);
    }
  }

  /** In every reachable state, dead workers included: the leases are exactly the
      initial pool; holders share nothing; the daemon's `get` calls find
      something; no job has been handed out twice. */
  lemma LeaseSafety(n: nat, tr: seq<Sys>, i: nat)
    requires Run(n, tr) && i < |tr|
    ensures var c := tr[i].cons;
      && AllIps(c) == multiset(InitIps(n)) && AllPorts(c) == multiset(InitPorts(n))
      && (n <= 555 ==> forall j, k :: 0 <= j < k < |c.workers| ==> Apart(c.workers[j], c.workers[k]))
      && (c.daemon.Fetched? ==> c.ips != [] && c.ports != [])
      && (c.daemon.HasIp? ==> c.ports != [])
      && Distinct(Handed(c))
  {
    RunLease(n, tr, i);
    var c := tr[i].cons;
    hide Run, AllIps, AllPorts, Handed;
    if n <= 555 {
      forall j, k | 0 <= j < k < |c.workers| ensures Apart(c.workers[j], c.workers[k]) {
        NoSharing(n, c, j, k);
      }
    }
  }

  /** In every reachable state, what is in the pools or held by anybody is from the
      ranges that the consumer sets up: no address below 172.31.250.130, no port below
      the first of its kind. */
  lemma RangeSafety(n: nat, tr: seq<Sys>, i: nat, ip: Ip, p: Ports)
    requires Run(n, tr) && i < |tr|
    ensures ip in AllIps(tr[i].cons) <==> 130 <= ip < 130 + n
    ensures p in AllPorts(tr[i].cons) <==> 0 <= p.grpc - 8554 == p.adb - 5555 == p.ssh - 2222 == p.scrcpy - 5000 < n
  {
    RunLease(n, tr, i);
    hide Run, AllIps, AllPorts;
    LeaseRange(n, tr[i].cons, ip, p);
  }

  // ----- order of service -----

  ghost predicate Sorted(js: seq<Job>) { forall i, j :: 0 <= i < j < |js| ==> js[i].createdAt <= js[j].createdAt }

  ghost predicate OrderInv(now: int, db: Db, c: Consumer) {
    && Sorted(Handed(c))
    && (forall i :: 0 <= i < |db.rows| ==> db.rows[i].createdAt <= now)
    && (forall h <- Handed(c) :: h.createdAt <= now)
    && (forall h, i :: h in Handed(c) && 0 <= i < |db.rows| && db.rows[i].status == Pending ==>
          h.createdAt <= db.rows[i].createdAt)
  }

  lemma OrderFetch(now: int, db: Db, c: Consumer, i: nat, db': Db, c': Consumer)
    requires OrderInv(now, db, c) && Fetches(db, c, i, db', c')
    ensures OrderInv(now, db', c')
  {
    FetchHanded(db, c, i, db', c');
    hide Handed;
    var h := Job(db.rows[i].id, db.rows[i].createdAt);
    assert forall x <- Handed(c) :: x.createdAt <= h.createdAt;
    assert forall j :: 0 <= j < |db'.rows| ==>
      db'.rows[j].createdAt == db.rows[j].createdAt && (db'.rows[j].status == Pending ==> db.rows[j].status == Pending);
  }

  lemma OrderTable(now: int, now': int, db: Db, c: Consumer, db': Db, c': Consumer)
    requires OrderInv(now, db, c) && Handed(c') == Handed(c) && now <= now' && Forward(db, db')
    requires forall j :: |db.rows| <= j < |db'.rows| ==> db'.rows[j].createdAt == now
    ensures OrderInv(now', db', c')
  {
    hide Handed;
    assert forall j :: 0 <= j < |db.rows| && db'.rows[j].status == Pending ==> db.rows[j].status == Pending;
  }

  lemma NewRows(s: Sys, s': Sys)
    requires Next(s, s')
    ensures forall j :: |s.db.rows| <= j < |s'.db.rows| ==> s'.db.rows[j].createdAt == s.clock
  {}

  lemma OrderStep(s: Sys, s': Sys)
    requires Valid(s.db) && OrderInv(s.clock, s.db, s.cons) && Next(s, s') && s.clock <= s'.clock
    ensures OrderInv(s'.clock, s'.db, s'.cons)
  {
    HandedStep(s, s');
    NextForward(s, s');
    NewRows(s, s');
    if i: nat :| Fetches(s.db, s.cons, i, s'.db, s'.cons) {
      FetchClock(s, s', i);
      hide Next, Handed, Forward, Valid;
      OrderFetch(s.clock, s.db, s.cons, i, s'.db, s'.cons);
    } else {
      hide Next, Handed, Forward, Valid;
      OrderTable(s.clock, s'.clock, s.db, s.cons, s'.db, s'.cons);
    }
  }

  lemma FetchClock(s: Sys, s': Sys, i: nat)
    requires Next(s, s') && Fetches(s.db, s.cons, i, s'.db, s'.cons)
    ensures s'.clock == s.clock
  {}

  /** While the clock does not run backwards, jobs are handed out in the order
      of their creation, over the whole run. */
  lemma {:induction false} FirstComeFirstServed(n: nat, tr: seq<Sys>, i: nat)
    requires Run(n, tr) && i < |tr|
    requires forall j :: 0 <= j < |tr| - 1 ==> tr[j].clock <= tr[j + 1].clock
    requires forall r <- tr[0].db.rows :: r.createdAt <= tr[0].clock
    ensures OrderInv(tr[i].clock, tr[i].db, tr[i].cons)
    ensures Sorted(Handed(tr[i].cons))
    decreases i
  {
    if i > 0 {
      hide Run, Next, Valid, Forward, OrderInv, Sorted, Handed;
      FirstComeFirstServed(n, tr, i - 1);
      RunForward(n, tr, i - 1, i);
      StepOf(n, tr, i - 1);
      OrderStep(tr[i - 1], tr[i]);
    }
  }

  // ----- dead workers -----

  function DeadCount(ws: seq<Worker>): nat {
    if ws == [] then 0 else DeadCount(ws[..|ws| - 1]) + if ws[|ws| - 1].phase.Dead? then 1 else 0
  }

  lemma {:induction false} DeadHold(ws: seq<Worker>)
    ensures |Held(IpOf, ws)| >= DeadCount(ws)
    decreases |ws|
  {
    if ws != [] { DeadHold(ws[..|ws| - 1]); }
  }

  lemma {:induction false} DeadUpdate(ws: seq<Worker>, k: nat, w: Worker)
    requires k < |ws| && !ws[k].phase.Dead?
    ensures DeadCount(ws[k := w]) >= DeadCount(ws)
    decreases |ws|
  {
    var n := |ws| - 1;
    if k < n {
      DeadUpdate(ws[..n], k, w);
      assert ws[k := w][..n] == ws[..n][k := w];
    } else {
      assert ws[k := w][..n] == ws[..n];
    }
  }

  lemma DeadStep(s: Sys, s': Sys)
    requires Next(s, s')
    ensures DeadCount(s'.cons.workers) >= DeadCount(s.cons.workers)
  {
    hide Pushed, ProducerStep, MayFetch, NonePending;
    var c, c' := s.cons, s'.cons;
    if k: nat :| WorkerStep(s.db, c, k, s'.db, c') {
      DeadUpdate(c.workers, k, c'.workers[k]);
    } else if Spawns(c, c') {
      assert c'.workers[..|c.workers|] == c.workers;
    }
  }

  /** Every lease a dead worker holds is gone for good. */
  lemma Exhausted(n: nat, c: Consumer)
    requires Conserved(n, c) && Ready(c) && DeadCount(c.workers) >= n
    ensures c.ips == [] && c.daemon == AtTop
  {
    DeadHold(c.workers);
    assert |multiset(InitIps(n))| == n;
    assert |AllIps(c)| == |c.ips| + |DaemonIp(c.daemon)| + |Held(IpOf, c.workers)|;
  }

  lemma NoFetchAtTop(s: Sys, s': Sys)
    requires Next(s, s') && s.cons.daemon == AtTop
    ensures Handed(s'.cons) == Handed(s.cons)
  {
    HandedStep(s, s');
    assert forall i: nat :: !Fetches(s.db, s.cons, i, s'.db, s'.cons);
  }

  /** Once as many workers have died as there are leases, no job is ever handed
      out again, whatever the others do. */
  lemma {:induction false} DeadWorkersStarveQueue(n: nat, tr: seq<Sys>, i: nat, j: nat)
    requires Run(n, tr) && i <= j < |tr| && DeadCount(tr[i].cons.workers) >= n
    ensures DeadCount(tr[j].cons.workers) >= n
    ensures Handed(tr[j].cons) == Handed(tr[i].cons)
    decreases j
  {
    hide Run, DeadCount, Handed;
    if i < j {
      DeadWorkersStarveQueue(n, tr, i, j - 1);
      StarvedStep(n, tr, j - 1);
    }
  }

  lemma StarvedStep(n: nat, tr: seq<Sys>, i: nat)
    requires Run(n, tr) && i + 1 < |tr| && DeadCount(tr[i].cons.workers) >= n
    ensures DeadCount(tr[i + 1].cons.workers) >= n
    ensures Handed(tr[i + 1].cons) == Handed(tr[i].cons)
  {
    RunLease(n, tr, i);
    StepOf(n, tr, i);
    hide Run, Next, JobsInv, DeadCount, Handed, Valid, Conserved, Ready;
    Exhausted(n, tr[i].cons);
    DeadStep(tr[i], tr[i + 1]);
    NoFetchAtTop(tr[i], tr[i + 1]);
  }

  // ----- batches -----

  /** Ids this producer got, batch by batch, the one in its hand included. */
  function Mine(p: Producer): set<nat> {
    (set j, id | 0 <= j < |p.queued| && id in p.queued[j] :: id) + if p.stage.HaveId? then {p.stage.id} else {}
  }

  function Hand(p: Producer): nat { if p.stage.HaveId? then 1 else 0 }

  ghost predicate BatchInv(db: Db, p: Producer) {
    && p.batch < |p.sizes| && |p.queued| == p.batch + 1
    && |p.queued[p.batch]| + Hand(p) <= p.sizes[p.batch]
    && (forall j :: 0 <= j < p.batch ==> |ActiveIds(db) * p.queued[j]| <= p.maxActive)
    && (p.stage == Passed ==> p.batch + 1 < |p.sizes| && |ActiveIds(db) * p.queued[p.batch]| <= p.maxActive)
    && (p.stage == Waiting ==> p.batch + 1 < |p.sizes|)
    && (forall j, id :: 0 <= j < |p.queued| && id in p.queued[j] ==> id <= db.lastId)
    && (p.stage.HaveId? ==> p.stage.id <= db.lastId)
  }

  lemma SetSmaller(a: set<nat>, b: set<nat>)
    requires a <= b
    ensures |a| <= |b|
  {
    assert b == a + (b - a);
  }

  /** Jobs queued before can only leave the active ones. */
  lemma ActiveShrinks(s: Sys, s': Sys, ids: set<nat>)
    requires Valid(s.db) && Next(s, s') && forall id <- ids :: id <= s.db.lastId
    ensures |ActiveIds(s'.db) * ids| <= |ActiveIds(s.db) * ids|
  {
    NextForward(s, s');
    SetSmaller(ActiveIds(s'.db) * ids, ActiveIds(s.db) * ids);
  }

  /** Nothing but the producer's own steps can put one of its jobs back. */
  lemma BatchKept(s: Sys, s': Sys)
    requires Valid(s.db) && BatchInv(s.db, s.prod) && Next(s, s')
    ensures BatchInv(s'.db, s.prod)
  {
    NextForward(s, s');
    hide Next, ActiveIds;
    var p := s.prod;
    forall j | 0 <= j < |p.queued| ensures |ActiveIds(s'.db) * p.queued[j]| <= |ActiveIds(s.db) * p.queued[j]| {
      ActiveShrinks(s, s', p.queued[j]);
    }
  }

  lemma ProducerAdds(now: int, db: Db, p: Producer, db': Db, p': Producer)
    requires BatchInv(db', p) && ProducerStep(now, db, p, db', p') && p.stage.HaveId?
    ensures BatchInv(db', p')
  {
    hide ActiveIds, Pushed;
    var q := p.queued[p.batch];
    assert |q + {p.stage.id}| <= |q| + 1;
  }

  lemma ProducerOpens(now: int, db: Db, p: Producer, db': Db, p': Producer)
    requires BatchInv(db', p) && ProducerStep(now, db, p, db', p') && p.stage == Passed
    ensures BatchInv(db', p')
  {
    hide ActiveIds, Pushed;
  }

  lemma ProducerBuilds(now: int, db: Db, p: Producer, db': Db, p': Producer)
    requires BatchInv(db', p) && ProducerStep(now, db, p, db', p') && !p.stage.HaveId? && p.stage != Passed
    requires p.stage == Waiting ==> db' == db
    ensures BatchInv(db', p')
  {
    hide ActiveIds, Pushed;
    assert p' == p.(stage := p'.stage);
    if p.stage == Waiting {
      assert p'.stage == Passed && |ActiveIds(db') * p.queued[p.batch]| <= p.maxActive;
    }
  }

  lemma ProducerKeeps(now: int, db: Db, p: Producer, db': Db, p': Producer)
    requires BatchInv(db', p) && ProducerStep(now, db, p, db', p')
    requires p.stage == Waiting ==> db' == db
    ensures BatchInv(db', p')
  {
    if p.stage.HaveId? {
      ProducerAdds(now, db, p, db', p');
    } else if p.stage == Passed {
      ProducerOpens(now, db, p, db', p');
    } else {
      ProducerBuilds(now, db, p, db', p');
    }
  }

  lemma BatchStep(s: Sys, s': Sys)
    requires Valid(s.db) && BatchInv(s.db, s.prod) && Next(s, s')
    ensures BatchInv(s'.db, s'.prod)
  {
    BatchKept(s, s');
    if s'.prod != s.prod {
      ProducerKeeps(s.clock, s.db, s.prod, s'.db, s'.prod);
    }
  }

  lemma {:induction false} RunBatch(n: nat, tr: seq<Sys>, i: nat)
    requires Run(n, tr) && i < |tr|
    ensures BatchInv(tr[i].db, tr[i].prod)
    decreases i
  {
    if i > 0 {
      hide Next, Run, Valid, Forward, BatchInv;
      RunBatch(n, tr, i - 1);
      RunForward(n, tr, i - 1, i);
      StepOf(n, tr, i - 1);
      BatchStep(tr[i - 1], tr[i]);
    }
  }

  function Union(sets: seq<set<nat>>): set<nat> { set j, id | 0 <= j < |sets| && id in sets[j] :: id }

  lemma UnionLast(active: set<nat>, sets: seq<set<nat>>)
    requires sets != []
    ensures var n := |sets| - 1;
            |active * Union(sets)| <= |active * Union(sets[..n])| + |active * sets[n]|
  {
    var n := |sets| - 1;
    assert forall j :: 0 <= j < n ==> sets[..n][j] == sets[j];
    assert Union(sets) == Union(sets[..n]) + sets[n];
    SizeOfUnion(active * Union(sets[..n]), active * sets[n], active * Union(sets));
  }

  lemma SizeOfUnion(a: set<nat>, b: set<nat>, c: set<nat>)
    requires c <= a + b
    ensures |c| <= |a| + |b|
  {
    SetSmaller(c, a + b);
    assert |a + b| <= |a| + |b|;
  }

  lemma {:induction false} UnionBound(active: set<nat>, sets: seq<set<nat>>, most: nat)
    requires forall j :: 0 <= j < |sets| ==> |active * sets[j]| <= most
    ensures |active * Union(sets)| <= |sets| * most
    decreases |sets|
  {
    if sets == [] {
      assert active * Union(sets) == {};
    } else {
      var n := |sets| - 1;
      UnionBound(active, sets[..n], most);
      UnionLast(active, sets);
      assert (n + 1) * most == n * most + most;
    }
  }

  /** The jobs of a batch and the one in hand. */
  function Current(p: Producer): set<nat>
    requires |p.queued| == p.batch + 1
  {
    p.queued[p.batch] + if p.stage.HaveId? then {p.stage.id} else {}
  }

  lemma MineSplit(p: Producer, active: set<nat>)
    requires |p.queued| == p.batch + 1
    ensures active * Mine(p) <= active * Union(p.queued[..p.batch]) + Current(p)
    ensures |Current(p)| <= |p.queued[p.batch]| + Hand(p)
  {
    var k := p.batch;
    forall id | id in active * Mine(p) ensures id in active * Union(p.queued[..k]) + Current(p) {
      if !(p.stage == HaveId(id)) {
        var j :| 0 <= j < |p.queued| && id in p.queued[j];
        if j < k { assert id in p.queued[..k][j]; }
      }
    }
    SizeOfUnion(p.queued[k], if p.stage.HaveId? then {p.stage.id} else {}, Current(p));
  }

  /** While batch `k` (counted from 0) is in progress, the active jobs this
      producer queued number at most `k * maxActive` plus the images of the batch;
      without an allowance they all belong to this batch. */
  lemma BatchBound(n: nat, tr: seq<Sys>, i: nat)
    requires Run(n, tr) && i < |tr|
    ensures var p, active := tr[i].prod, ActiveIds(tr[i].db) * Mine(tr[i].prod);
      && p.batch < |p.sizes| && |p.queued| == p.batch + 1
      && |active| <= p.batch * p.maxActive + p.sizes[p.batch]
      && (p.maxActive == 0 ==> active <= Current(p))
  {
    RunBatch(n, tr, i);
    var p, all := tr[i].prod, ActiveIds(tr[i].db);
    var earlier := p.queued[..p.batch];
    UnionBound(all, earlier, p.maxActive);
    MineSplit(p, all);
    hide ActiveIds, Mine, Union, Run;
    SizeOfUnion(all * Union(earlier), Current(p), all * Mine(p));
    assert |earlier| * p.maxActive == p.batch * p.maxActive;
    if p.maxActive == 0 {
      assert |all * Union(earlier)| == 0;
    }
  }
}
