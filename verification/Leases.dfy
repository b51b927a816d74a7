/** consumer.py: the pools of addresses and port blocks, and who holds what. */
module Leases {

  /** The last octet of an address `172.31.250.x`. */
  type Ip = nat

  /** The four host ports of one container. */
  datatype Ports = Ports(grpc: nat, adb: nat, ssh: nat, scrcpy: nat)

  const MaxConcurrentEmulators: nat := 20

  function IpAt(i: nat): Ip { 130 + i }

  function PortsAt(i: nat): Ports { Ports(8554 + i, 5555 + i, 2222 + i, 5000 + i) }

  function InitIps(n: nat): seq<Ip> { seq(n, i requires 0 <= i < n => IpAt(i)) }

  function InitPorts(n: nat): seq<Ports> { seq(n, i requires 0 <= i < n => PortsAt(i)) }

  /** The set-up loops of the module. */
  method SetUpPools(n: nat) returns (ips: seq<Ip>, ports: seq<Ports>)
    ensures ips == InitIps(n) && ports == InitPorts(n)
    ensures |ips| == n == |ports|
    ensures forall i :: 0 <= i < n ==> ips[i] == 130 + i && ports[i] == Ports(8554 + i, 5555 + i, 2222 + i, 5000 + i)
  {
    ips, ports := [], [];
    for i := 130 to 130 + n
      invariant ips == InitIps(i - 130)
    {
      ips := ips + [i];
    }
    for i := 0 to n
      invariant ports == InitPorts(i)
    {
      ports := ports + [Ports(8554 + i, 5555 + i, 2222 + i, 5000 + i)];
    }
  }

  function HostPorts(p: Ports): set<nat> { {p.grpc, p.adb, p.ssh, p.scrcpy} }

  /** No host port is handed out twice, neither inside a block nor across. */
  ghost predicate PortsDisjoint(n: nat) {
    && (forall i: nat :: i < n ==> |HostPorts(PortsAt(i))| == 4)
    && forall i: nat, j: nat :: i < j < n ==> HostPorts(PortsAt(i)) !! HostPorts(PortsAt(j))
  }

  lemma FourPorts(p: Ports)
    requires p.ssh < p.scrcpy < p.adb < p.grpc
    ensures |HostPorts(p)| == 4
  {
    assert HostPorts(p) == {p.grpc} + {p.adb} + {p.ssh} + {p.scrcpy};
  }

  /** The four ranges stay apart exactly up to 555 blocks: `scrcpy` reaches the
      first `adb` port with the 556th. */
  lemma PortsDisjointExactly(n: nat)
    ensures PortsDisjoint(n) <==> n <= 555
  {
    if n <= 555 {
      forall i: nat | i < n ensures |HostPorts(PortsAt(i))| == 4 {
        FourPorts(PortsAt(i));
      }
    } else {
      assert 5555 in HostPorts(PortsAt(0)) && 5555 in HostPorts(PortsAt(555));
    }
  }

  /** A job as `fetch_next_job` returns it. */
  datatype Job = Job(id: nat, createdAt: int)

  datatype Daemon =
    | AtTop
    | IpSeen
    | BothSeen
    | Fetched(job: Job)
    | HasIp(job: Job, ip: Ip)
    | HasBoth(job: Job, ip: Ip, ports: Ports)

  /** A worker thread: cleaning directories before its `try`, running a container
      until the attempt to remove it, then giving things back one by one; or dead of
      an exception before it came to that. */
  datatype Phase =
    | Cleaning(ip: Ip, ports: Ports)
    | Running(ip: Ip, ports: Ports)
    | Torn(ip: Ip, ports: Ports)
    | Marked(ip: Ip, ports: Ports)
    | IpReturned(ports: Ports)
    | Gone
    | Dead(ip: Ip, ports: Ports)

  /** The container of a job, with the address and the ports it was made with. */
  datatype Box = NoBox | Box(ip: Ip, ports: Ports)

  datatype Worker = Worker(job: Job, phase: Phase, box: Box)

  datatype Consumer = Consumer(ips: seq<Ip>, ports: seq<Ports>, daemon: Daemon, workers: seq<Worker>)

  // ----- who holds what -----

  function IpOf(w: Worker): multiset<Ip> {
    match w.phase
    case IpReturned(_) => multiset{}
    case Gone => multiset{}
    case _ => multiset{w.phase.ip}
  }

  function PortsOf(w: Worker): multiset<Ports> {
    if w.phase.Gone? then multiset{} else multiset{w.phase.ports}
  }

  function DaemonIp(d: Daemon): multiset<Ip> { if d.HasIp? || d.HasBoth? then multiset{d.ip} else multiset{} }

  function DaemonPorts(d: Daemon): multiset<Ports> { if d.HasBoth? then multiset{d.ports} else multiset{} }

  /** What all workers hold together, for either resource. */
  function Held<R>(of: Worker -> multiset<R>, ws: seq<Worker>): multiset<R> {
    if ws == [] then multiset{} else Held(of, ws[..|ws| - 1]) + of(ws[|ws| - 1])
  }

  lemma {:induction false} HeldUpdate<R>(of: Worker -> multiset<R>, ws: seq<Worker>, k: nat, w: Worker)
    requires k < |ws|
    ensures Held(of, ws[k := w]) + of(ws[k]) == Held(of, ws) + of(w)
    decreases |ws|
  {
    var n := |ws| - 1;
    var us := ws[k := w];
    assert Held(of, us) == Held(of, us[..n]) + of(us[n]);
    assert Held(of, ws) == Held(of, ws[..n]) + of(ws[n]);
    if k < n {
      HeldUpdate(of, ws[..n], k, w);
      assert Held(of, ws[..n][k := w]) + of(ws[k]) == Held(of, ws[..n]) + of(w);
      assert us[..n] == ws[..n][k := w] && us[n] == ws[n];
      assert Held(of, us) + of(ws[k]) == Held(of, us[..n]) + of(ws[k]) + of(ws[n]);
    } else {
      assert us[..n] == ws[..n];
    }
  }

  lemma HeldAdd<R>(of: Worker -> multiset<R>, ws: seq<Worker>, w: Worker)
    ensures Held(of, ws + [w]) == Held(of, ws) + of(w)
  {
    assert (ws + [w])[..|ws|] == ws;
  }

  lemma {:induction false} HeldAt<R>(of: Worker -> multiset<R>, ws: seq<Worker>, k: nat)
    requires k < |ws|
    ensures of(ws[k]) <= Held(of, ws)
    decreases |ws|
  {
    var n := |ws| - 1;
    if k < n { HeldAt(of, ws[..n], k); }
  }

  lemma {:induction false} HeldTwice<R>(of: Worker -> multiset<R>, ws: seq<Worker>, j: nat, k: nat)
    requires j < k < |ws|
    ensures of(ws[j]) + of(ws[k]) <= Held(of, ws)
    decreases |ws|
  {
    var n := |ws| - 1;
    if k < n {
      HeldTwice(of, ws[..n], j, k);
    } else {
      HeldAt(of, ws[..n], j);
    }
  }

  function AllIps(c: Consumer): multiset<Ip> {
    multiset(c.ips) + DaemonIp(c.daemon) + Held(IpOf, c.workers)
  }

  function AllPorts(c: Consumer): multiset<Ports> {
    multiset(c.ports) + DaemonPorts(c.daemon) + Held(PortsOf, c.workers)
  }

  /** Nothing is lost and nothing is doubled. */
  ghost predicate Conserved(n: nat, c: Consumer) {
    AllIps(c) == multiset(InitIps(n)) && AllPorts(c) == multiset(InitPorts(n))
  }

  lemma {:induction false} InitOnce(n: nat)
    ensures forall x :: multiset(InitIps(n))[x] <= 1
    ensures forall x :: multiset(InitPorts(n))[x] <= 1
    ensures forall x <- multiset(InitPorts(n)) :: exists i: nat :: i < n && x == PortsAt(i)
  {
    if n > 0 {
      InitOnce(n - 1);
      assert InitIps(n) == InitIps(n - 1) + [IpAt(n - 1)];
      assert InitPorts(n) == InitPorts(n - 1) + [PortsAt(n - 1)];
    }
  }

  /** What can be leased: the addresses from 172.31.250.130 on and the blocks of ports
      from 8554, 5555, 2222 and 5000 on, in a row. */
  lemma LeaseRange(n: nat, c: Consumer, ip: Ip, p: Ports)
    requires Conserved(n, c)
    ensures ip in AllIps(c) <==> 130 <= ip < 130 + n
    ensures p in AllPorts(c) <==> 0 <= p.grpc - 8554 == p.adb - 5555 == p.ssh - 2222 == p.scrcpy - 5000 < n
  {
    hide AllIps, AllPorts;
    if 130 <= ip < 130 + n { assert InitIps(n)[ip - 130] == ip; }
    var i := p.grpc - 8554;
    if 0 <= i == p.adb - 5555 == p.ssh - 2222 == p.scrcpy - 5000 < n { assert InitPorts(n)[i] == p; }
  }

  /** Two workers share no address and no host port. */
  ghost predicate Apart(v: Worker, w: Worker) {
    && IpOf(v) !! IpOf(w)
    && forall p, q :: p in PortsOf(v) && q in PortsOf(w) ==> HostPorts(p) !! HostPorts(q)
  }

  lemma OnceOnly<R>(v: multiset<R>, w: multiset<R>, all: multiset<R>)
    requires v + w <= all && forall x :: all[x] <= 1
    ensures v !! w
  {
    forall x | x in v ensures x !in w { assert (v + w)[x] <= all[x]; }
  }

  lemma BlocksApart(n: nat, p: Ports, q: Ports)
    requires n <= 555 && p in multiset(InitPorts(n)) && q in multiset(InitPorts(n)) && p != q
    ensures HostPorts(p) !! HostPorts(q)
  {
    InitOnce(n);
    PortsDisjointExactly(n);
    var i: nat :| i < n && p == PortsAt(i);
    var j: nat :| j < n && q == PortsAt(j);
    hide HostPorts, PortsAt, InitPorts;
    assert i != j;
  }

  lemma NoSharing(n: nat, c: Consumer, j: nat, k: nat)
    requires Conserved(n, c) && n <= 555 && j < k < |c.workers|
    ensures Apart(c.workers[j], c.workers[k])
  {
    var v, w := c.workers[j], c.workers[k];
    HeldTwice(IpOf, c.workers, j, k);
    HeldTwice(PortsOf, c.workers, j, k);
    InitOnce(n);
    hide IpOf, PortsOf, Held, InitIps, InitPorts, HostPorts;
    OnceOnly(IpOf(v), IpOf(w), AllIps(c));
    OnceOnly(PortsOf(v), PortsOf(w), AllPorts(c));
    forall p, q | p in PortsOf(v) && q in PortsOf(w) ensures HostPorts(p) !! HostPorts(q) {
      assert p in AllPorts(c) && q in AllPorts(c);
      BlocksApart(n, p, q);
    }
  }
}
