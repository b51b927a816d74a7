/** consumer.py and the queueing of create_docker_emulator_images.py as they run
    when nobody else takes a step in between: one turn of the daemon's loop, one
    worker from beginning to end, one batch. Each is a chain of protocol steps. */
module ConsumerLoop {
  import opened EmulatorProtocol
  import opened JobQueue
  import opened Leases
  import opened Options

  /** The batch is pushed image by image; the ids go into `batch_job_ids`. */
  method EnqueueBatch(table: Table, images: seq<string>, now: int) returns (ids: seq<nat>)
    requires Valid(table.View())
    modifies table
    ensures Valid(table.View()) && |ids| == |images|
    ensures forall i :: 0 <= i < |ids| ==> ids[i] == old(table.lastId) + 1 + i
    ensures table.lastId == old(table.lastId) + |images|
    ensures table.rows == old(table.rows) + seq(|images|, i requires 0 <= i < |images| =>
                            Row(old(table.lastId) + 1 + i, images[i], Pending, now))
  {
    ids := [];
    for k := 0 to |images|
      invariant Valid(table.View()) && |ids| == k && table.lastId == old(table.lastId) + k
      invariant forall i :: 0 <= i < k ==> ids[i] == old(table.lastId) + 1 + i
      invariant table.rows == old(table.rows) + seq(k, i requires 0 <= i < k =>
                                Row(old(table.lastId) + 1 + i, images[i], Pending, now))
    {
      var id := table.PushJob(images[k], now);
      ids := ids + [id];
    }
  }

  class Process {
    var ips: seq<Ip>
    var ports: seq<Ports>
    var workers: seq<Worker>

    ghost function View(): Consumer reads this { Consumer(ips, ports, AtTop, workers) }

    constructor ()
      ensures View() == Consumer(InitIps(MaxConcurrentEmulators), InitPorts(MaxConcurrentEmulators), AtTop, [])
      ensures Conserved(MaxConcurrentEmulators, View())
      ensures |ips| == 20 == |ports|
      ensures forall i :: 0 <= i < 20 ==> ips[i] == 130 + i && ports[i] == Ports(8554 + i, 5555 + i, 2222 + i, 5000 + i)
    {
      new;
      ips, ports := SetUpPools(MaxConcurrentEmulators);
      workers := [];
    }

    /** One turn of `daemon_loop`. It leases the first address and the first ports
        to the job it fetches, or changes nothing for want of a lease or a job. */
    method DaemonTurn(table: Table) returns (spawned: bool)
      requires Valid(table.View())
      modifies this, table
      ensures SameLeases(old(View()), View())
      ensures !spawned ==> View() == old(View()) && table.View() == old(table.View())
                           && (ips == [] || ports == [] || NonePending(table.View()))
      ensures spawned ==> old(ips) != [] && old(ports) != [] && exists i: nat ::
                && MayFetch(old(table.View()), i) && table.View() == SetAt(old(table.View()), i, Processing)
                && View() == Consumer(old(ips)[1..], old(ports)[1..], AtTop, old(workers)
                               + [Worker(JobOf(old(table.rows)[i]), Cleaning(old(ips)[0], old(ports)[0]), NoBox)])
    {
      if ips == [] || ports == [] { return false; }
      var row := table.FetchNextJob();
      if row.None? { return false; }
      var job, ip, block := JobOf(row.value), ips[0], ports[0];
      ghost var c := View();
      ghost var c0 := c.(daemon := Fetched(job));
      ghost var c1 := c0.(ips := ips[1..], daemon := HasIp(job, ip));
      ghost var c2 := c1.(ports := ports[1..], daemon := HasBoth(job, ip, block));
      ips := ips[1..];
      ports := ports[1..];
      workers := workers + [Worker(job, Cleaning(ip, block), NoBox)];
      spawned := true;
      TakesIpConserves(c0, c1);
      TakesPortsConserves(c1, c2);
      SpawnsConserves(c2, View());
      assert AllIps(c0) == AllIps(c) && AllPorts(c0) == AllPorts(c);
    }

    /** `process_emulator_job` for a worker that was just started. It dies with its
        lease in the cleaning before the `try`, or if the table cannot be written;
        otherwise the job is completed and the lease goes to the end of the pools,
        whether the container could be removed or not. */
    method ProcessEmulatorJob(k: nat, table: Table)
      requires k < |workers| && workers[k].phase.Cleaning? && workers[k].box == NoBox
      modifies this, table
      ensures SameLeases(old(View()), View())
      ensures |workers| == |old(workers)| && workers[k].job == old(workers)[k].job
      ensures forall j :: 0 <= j < |workers| && j != k ==> workers[j] == old(workers)[j]
      ensures workers[k].box == NoBox || workers[k].box == Box(old(workers)[k].phase.ip, old(workers)[k].phase.ports)
      ensures var w, ph := workers[k].phase, old(workers)[k].phase;
        || (w == Dead(ph.ip, ph.ports) && ips == old(ips) && ports == old(ports) && table.View() == old(table.View()))
        || (w == Gone && ips == old(ips) + [ph.ip] && ports == old(ports) + [ph.ports]
            && table.View() == SetStatus(old(table.View()), workers[k].job.id, Completed))
    {
      var w := workers[k];
      var ip, block := w.phase.ip, w.phase.ports;
      ghost var c := View();
      var raised: bool, box := *, NoBox;
      if !raised {
        workers := workers[k := w.(phase := Running(ip, block))];
        var created: bool := *;
        if created { box := Box(ip, block); }
        var removed: bool := *;
        if removed { box := NoBox; }
        raised := *;
      }
      if raised {
        workers := workers[k := w.(phase := Dead(ip, block), box := box)];
        WorkerDies(c, View(), k);
        return;
      }
      table.MarkJobCompleted(w.job.id);
      ips := ips + [ip];
      ports := ports + [block];
      workers := workers[k := w.(phase := Gone, box := box)];
      WorkerEnds(c, View(), k);
    }
  }

  lemma WorkerDies(c: Consumer, c': Consumer, k: nat)
    requires k < |c.workers| == |c'.workers| && c.workers[k].phase.Cleaning?
    requires var ph := c.workers[k].phase;
             c' == c.(workers := c.workers[k := c'.workers[k]]) && c'.workers[k].phase == Dead(ph.ip, ph.ports)
    ensures SameLeases(c, c')
  {
    var w, w' := c.workers[k], c'.workers[k];
    HeldUpdate(IpOf, c.workers, k, w');
    HeldUpdate(PortsOf, c.workers, k, w');
    assert IpOf(w) == IpOf(w') && PortsOf(w) == PortsOf(w');
    hide Held, IpOf, PortsOf;
    Balance(multiset(c.ips), multiset(c.ips), DaemonIp(c.daemon), Held(IpOf, c.workers), Held(IpOf, c'.workers),
            IpOf(w), IpOf(w'));
    Balance(multiset(c.ports), multiset(c.ports), DaemonPorts(c.daemon), Held(PortsOf, c.workers),
            Held(PortsOf, c'.workers), PortsOf(w), PortsOf(w'));
  }

  /** What the worker gave up is in the pools again. */
  lemma WorkerEnds(c: Consumer, c': Consumer, k: nat)
    requires k < |c.workers| == |c'.workers| && c.workers[k].phase.Cleaning? && c'.workers[k].phase == Gone
    requires var ph := c.workers[k].phase;
             c' == c.(ips := c.ips + [ph.ip], ports := c.ports + [ph.ports], workers := c.workers[k := c'.workers[k]])
    ensures SameLeases(c, c')
  {
    var w, w' := c.workers[k], c'.workers[k];
    HeldUpdate(IpOf, c.workers, k, w');
    HeldUpdate(PortsOf, c.workers, k, w');
    GiveBack(c.ips, w.phase.ip);
    GiveBack(c.ports, w.phase.ports);
    assert IpOf(w) == multiset{w.phase.ip} && IpOf(w') == multiset{};
    assert PortsOf(w) == multiset{w.phase.ports} && PortsOf(w') == multiset{};
    hide Held, IpOf, PortsOf;
    Balance(multiset(c.ips), multiset(c'.ips), DaemonIp(c.daemon), Held(IpOf, c.workers), Held(IpOf, c'.workers),
            IpOf(w), IpOf(w'));
    Balance(multiset(c.ports), multiset(c'.ports), DaemonPorts(c.daemon), Held(PortsOf, c.workers),
            Held(PortsOf, c'.workers), PortsOf(w), PortsOf(w'));
  }

  function JobOf(row: Row): Job { Job(row.id, row.createdAt) }
}
