/** docker_spawn.py: a scheduler that starts emulator containers in slots. A slot
    fixes one address and four host ports. */
module SlotAllocator {
  import opened Options

  const FirstSlot: nat := 50
  const MaxConcurrentContainers: nat := 30

  predicate IsSlot(slot: int) { FirstSlot <= slot < FirstSlot + MaxConcurrentContainers }

  function TargetPorts(slot: int): set<int> { {8554 + slot, 5555 + slot, 2222 + slot, 5000 + slot} }

  /** What was read of one container before its `reload` or its attributes raised:
      the last octet of its address on the android network, and host ports. */
  datatype Seen = Seen(ip: Option<int>, ports: seq<int>)

  datatype Resources = Resources(slot: int, ip: int, bindings: map<int, int>)

  function UsedIps(seen: seq<Seen>): set<int> {
    set i | 0 <= i < |seen| && seen[i].ip.Some? :: seen[i].ip.value
  }

  function UsedPorts(seen: seq<Seen>): set<int> {
    set i, p | 0 <= i < |seen| && p in seen[i].ports :: p
  }

  predicate Free(slot: int, ips: set<int>, ports: set<int>) {
    slot !in ips && TargetPorts(slot) !! ports
  }

  /** The lowest free slot, or nothing if there is none. */
  ghost predicate Lowest(slot: Option<int>, ips: set<int>, ports: set<int>) {
    match slot
    case Some(k) => IsSlot(k) && Free(k, ips, ports) && forall t :: FirstSlot <= t < k ==> !Free(t, ips, ports)
    case None => forall t :: IsSlot(t) ==> !Free(t, ips, ports)
  }

  /** A container that was read has the address of the slot or one of its host ports. */
  ghost predicate Occupied(seen: seq<Seen>, slot: int) {
    exists i :: 0 <= i < |seen| && Occupies(seen[i], slot)
  }

  ghost predicate Occupies(seen: Seen, slot: int) {
    || seen.ip == Some(slot)
    || 8554 + slot in seen.ports || 5555 + slot in seen.ports || 2222 + slot in seen.ports || 5000 + slot in seen.ports
  }

  lemma FreeExactly(seen: seq<Seen>, slot: int)
    ensures Free(slot, UsedIps(seen), UsedPorts(seen)) <==> !Occupied(seen, slot)
  {
    if i :| 0 <= i < |seen| && Occupies(seen[i], slot) {
      assert seen[i].ip == Some(slot) ==> slot in UsedIps(seen);
      forall p | p in seen[i].ports ensures p in UsedPorts(seen) {}
    }
    if slot in UsedIps(seen) {
      var i :| 0 <= i < |seen| && seen[i].ip.Some? && seen[i].ip.value == slot;
      assert Occupies(seen[i], slot);
    }
    if p :| p in TargetPorts(slot) && p in UsedPorts(seen) {
      var i :| 0 <= i < |seen| && p in seen[i].ports;
      assert Occupies(seen[i], slot);
    }
  }

  method GetAvailableResources(active: seq<Seen>) returns (r: Option<Resources>)
    ensures Lowest(if r.Some? then Some(r.value.slot) else None, UsedIps(active), UsedPorts(active))
    ensures r.Some? ==> var k := r.value.slot;
      && r.value.ip == k
      && r.value.bindings == map[8554 := 8554 + k, 5555 := 5555 + k, 22 := 2222 + k, 5037 := 5000 + k]
      && r.value.bindings.Values == TargetPorts(k)
    ensures r.Some? ==> 50 <= r.value.slot < 80 && !Occupied(active, r.value.slot)
    ensures forall t :: 50 <= t < (if r.Some? then r.value.slot else 80) ==> Occupied(active, t)
  {
    forall t ensures Free(t, UsedIps(active), UsedPorts(active)) <==> !Occupied(active, t) { FreeExactly(active, t); }
    hide Occupied;
    var usedIps: set<int>, usedPorts: set<int> := {}, {};
    for i := 0 to |active|
      invariant usedIps == UsedIps(active[..i]) && usedPorts == UsedPorts(active[..i])
    {
      if active[i].ip.Some? { usedIps := usedIps + {active[i].ip.value}; }
      for j := 0 to |active[i].ports|
        invariant usedPorts == UsedPorts(active[..i]) + set p | p in active[i].ports[..j]
      {
        usedPorts := usedPorts + {active[i].ports[j]};
      }
      UsedNext(active, i);
    }
    assert active[..|active|] == active;
    for slot := FirstSlot to FirstSlot + MaxConcurrentContainers
      invariant forall t :: FirstSlot <= t < slot ==> !Free(t, usedIps, usedPorts)
    {
      var targetPorts := {8554 + slot, 5555 + slot, 2222 + slot, 5000 + slot};
      assert targetPorts == TargetPorts(slot);
      if slot !in usedIps && targetPorts !! usedPorts {
        var bindings := map[8554 := 8554 + slot, 5555 := 5555 + slot, 22 := 2222 + slot, 5037 := 5000 + slot];
        BindingsOf(slot, bindings);
        return Some(Resources(slot, slot, bindings));
      }
    }
    return None;
  }

  lemma BindingsOf(slot: int, bindings: map<int, int>)
    requires bindings == map[8554 := 8554 + slot, 5555 := 5555 + slot, 22 := 2222 + slot, 5037 := 5000 + slot]
    ensures bindings.Values == TargetPorts(slot)
  {
    assert bindings[8554] == 8554 + slot && bindings[5555] == 5555 + slot
        && bindings[22] == 2222 + slot && bindings[5037] == 5000 + slot;
  }

  lemma UsedNext(seen: seq<Seen>, i: nat)
    requires i < |seen|
    ensures UsedIps(seen[..i + 1]) == UsedIps(seen[..i]) + if seen[i].ip.Some? then {seen[i].ip.value} else {}
    ensures UsedPorts(seen[..i + 1]) == UsedPorts(seen[..i]) + set p | p in seen[i].ports
    ensures seen[i].ports[..|seen[i].ports|] == seen[i].ports
  {
    var a, b := seen[..i], seen[..i + 1];
    assert b == a + [seen[i]] && b[i] == seen[i];
    assert forall j :: 0 <= j < i ==> a[j] == b[j];
    forall p ensures p in UsedPorts(b) <==> p in UsedPorts(a) || p in seen[i].ports {
      if j :| 0 <= j < |b| && p in b[j].ports {
        if j < i { assert p in a[j].ports; }
      }
      if j :| 0 <= j < |a| && p in a[j].ports { assert p in b[j].ports; }
      if p in seen[i].ports { assert p in b[i].ports; }
    }
  }

  /** Within the range, the resources of two slots never meet. */
  lemma SlotsApart(s: int, t: int)
    requires IsSlot(s) && IsSlot(t) && s != t
    ensures TargetPorts(s) !! TargetPorts(t)
  {}

  // ----- the runner -----

  /** A running container; it gets its address some time after its start. */
  datatype Container = Container(slot: int, connected: bool)

  datatype Runner =
    | Idle
    | Listed(ids: set<nat>)
    | Scanning(rest: set<nat>, ips: set<int>, ports: set<int>)
    | NoSlot
    | Chosen(slot: int)
    | HasImage(slot: int)
    | Booted(id: nat)

  /** `stopped` holds the slots of containers that exist without running; `lost`
      counts the images taken from the queue whose start failed for the name. */
  datatype Sys = Sys(images: nat, live: map<nat, Container>, stopped: set<int>, runner: Runner, lost: nat)

  function IpOf(c: Container): set<int> { if c.connected then {c.slot} else {} }

  ghost predicate Vacant(live: map<nat, Container>, slot: int) { forall i <- live :: live[i].slot != slot }

  /** A container is named after its slot, and names are unique, running or not. */
  ghost predicate NameTaken(s: Sys, slot: int) { slot in s.stopped || !Vacant(s.live, slot) }

  ghost predicate Lists(s: Sys, s': Sys) { s.runner == Idle && s' == s.(runner := Listed(s.live.Keys)) }

  ghost predicate Counts(s: Sys, s': Sys) {
    && s.runner.Listed?
    && s' == s.(runner := if s.images > 0 && |s.runner.ids| < MaxConcurrentContainers
                          then Scanning(s.runner.ids, {}, {}) else Idle)
  }

  /** A live container is read, one that has gone is passed over. */
  ghost predicate Reloads(s: Sys, id: nat, s': Sys) {
    && s.runner.Scanning? && id in s.runner.rest
    && var r := s.runner;
       s' == s.(runner := if id in s.live
                          then Scanning(r.rest - {id}, r.ips + IpOf(s.live[id]), r.ports + TargetPorts(s.live[id].slot))
                          else Scanning(r.rest - {id}, r.ips, r.ports))
  }

  /** `reload` raises although the container is live. */
  ghost predicate Misses(s: Sys, id: nat, s': Sys) {
    && s.runner.Scanning? && id in s.runner.rest
    && s' == s.(runner := Scanning(s.runner.rest - {id}, s.runner.ips, s.runner.ports))
  }

  ghost predicate Picks(s: Sys, s': Sys) {
    && s.runner.Scanning? && s.runner.rest == {}
    && exists slot :: Lowest(slot, s.runner.ips, s.runner.ports)
                      && s' == s.(runner := if slot.Some? then Chosen(slot.value) else NoSlot)
  }

  ghost predicate Takes(s: Sys, s': Sys) {
    s.runner.Chosen? && s.images > 0 && s' == s.(images := s.images - 1, runner := HasImage(s.runner.slot))
  }

  ghost predicate Boots(s: Sys, id: nat, s': Sys) {
    && s.runner.HasImage? && id !in s.live && !NameTaken(s, s.runner.slot)
    && s' == s.(live := s.live[id := Container(s.runner.slot, false)], runner := Booted(id))
  }

  /** `containers.run` raises because the name is in use; the image is gone. */
  ghost predicate Fails(s: Sys, s': Sys) {
    && s.runner.HasImage? && NameTaken(s, s.runner.slot)
    && s' == s.(runner := Idle, lost := s.lost + 1)
  }

  ghost predicate Connects(s: Sys, s': Sys) {
    && s.runner.Booted? && s.runner.id in s.live
    && s' == s.(live := s.live[s.runner.id := s.live[s.runner.id].(connected := true)], runner := Idle)
  }

  /** Any other exception in the body of the loop, or its end. */
  ghost predicate Recovers(s: Sys, s': Sys) { s' == s.(runner := Idle) }

  ghost predicate Removed(s: Sys, id: nat, s': Sys) { id in s.live && s' == s.(live := s.live - {id}) }

  /** The container stops and stays. */
  ghost predicate Stops(s: Sys, id: nat, s': Sys) {
    id in s.live && s' == s.(live := s.live - {id}, stopped := s.stopped + {s.live[id].slot})
  }

  /** A stopped container runs again, or is removed. */
  ghost predicate Restarts(s: Sys, id: nat, c: Container, s': Sys) {
    c.slot in s.stopped && id !in s.live && s' == s.(live := s.live[id := c], stopped := s.stopped - {c.slot})
  }

  ghost predicate Clears(s: Sys, slot: int, s': Sys) { s' == s.(stopped := s.stopped - {slot}) }

  ghost predicate Arrives(s: Sys, s': Sys) { s' == s.(images := s.images + 1) }

  /** What the runner does. */
  ghost predicate RunnerStep(s: Sys, s': Sys) {
    || Lists(s, s') || Counts(s, s') || Picks(s, s') || Takes(s, s')
    || Fails(s, s') || Connects(s, s') || Recovers(s, s')
    || (exists id :: Reloads(s, id, s'))
    || (exists id :: Boots(s, id, s'))
  }

  /** What happens to it. */
  ghost predicate DockerStep(s: Sys, s': Sys) {
    || Arrives(s, s')
    || (exists id :: Removed(s, id, s'))
    || (exists id, c :: Restarts(s, id, c, s'))
    || (exists slot :: Clears(s, slot, s'))
  }

  /** `reliable`: a live container can always be read. `tidy`: one that stops is
      removed. */
  ghost predicate Step(reliable: bool, tidy: bool, s: Sys, s': Sys) {
    || RunnerStep(s, s')
    || DockerStep(s, s')
    || (!reliable && exists id :: Misses(s, id, s'))
    || (!tidy && exists id :: Stops(s, id, s'))
  }

  ghost predicate Run(reliable: bool, tidy: bool, tr: seq<Sys>) {
    && tr != []
    && tr[0].live == map[] && tr[0].stopped == {} && tr[0].runner == Idle && tr[0].lost == 0
    && forall i :: 0 <= i < |tr| - 1 ==> Step(reliable, tidy, tr[i], tr[i + 1])
  }

  // ----- what every run keeps -----

  function Blocked(ips: set<int>, ports: set<int>): set<int> {
    set t | FirstSlot <= t < FirstSlot + MaxConcurrentContainers && !Free(t, ips, ports)
  }

  ghost predicate Placed(live: map<nat, Container>) {
    && (forall i <- live :: IsSlot(live[i].slot))
    && forall i, j :: i in live && j in live && i != j ==> live[i].slot != live[j].slot
  }

  /** Every container has a slot of its own, and too few slots are blocked to run
      out of them. */
  ghost predicate Inv(s: Sys) {
    && Placed(s.live) && (forall k <- s.stopped :: IsSlot(k) && Vacant(s.live, k))
    && match s.runner
       case Scanning(rest, ips, ports) => s.images > 0 && |Blocked(ips, ports)| + |rest| < MaxConcurrentContainers
       case Chosen(slot) => s.images > 0 && IsSlot(slot)
       case HasImage(slot) => IsSlot(slot)
       case NoSlot => false
       case _ => true
  }

  lemma SlotCount(n: nat) returns (all: set<int>)
    ensures (forall t :: t in all <==> FirstSlot <= t < FirstSlot + n) && |all| == n
  {
    all := {};
    for i := 0 to n
      invariant (forall t :: t in all <==> FirstSlot <= t < FirstSlot + i) && |all| == i
    {
      all := all + {FirstSlot + i};
    }
  }

  lemma Smaller<T>(a: set<T>, b: set<T>)
    requires a <= b
    ensures |a| <= |b|
  {
    assert b == a + (b - a);
  }

  /** Reading a container blocks its own slot and no other. */
  lemma ReloadBlocks(ips: set<int>, ports: set<int>, c: Container)
    requires IsSlot(c.slot)
    ensures Blocked(ips + IpOf(c), ports + TargetPorts(c.slot)) == Blocked(ips, ports) + {c.slot}
  {
    forall t | IsSlot(t)
      ensures Free(t, ips + IpOf(c), ports + TargetPorts(c.slot)) <==> Free(t, ips, ports) && t != c.slot
    {
      if t == c.slot {
        assert 8554 + t in TargetPorts(t);
      } else {
        SlotsApart(t, c.slot);
      }
    }
  }

  lemma ReloadsKeep(s: Sys, id: nat, s': Sys)
    requires Inv(s) && (Reloads(s, id, s') || Misses(s, id, s'))
    ensures Inv(s')
  {
    var r, r' := s.runner, s'.runner;
    if Reloads(s, id, s') && id in s.live {
      ReloadBlocks(r.ips, r.ports, s.live[id]);
      hide Blocked;
      var b, b' := Blocked(r.ips, r.ports), Blocked(r'.ips, r'.ports);
      assert |b'| <= |b| + 1;
    }
  }

  /** With fewer slots blocked than there are, one is free. */
  lemma FreeExists(ips: set<int>, ports: set<int>)
    requires |Blocked(ips, ports)| < MaxConcurrentContainers
    ensures !Lowest(None, ips, ports)
  {
    if Lowest(None, ips, ports) {
      var all := SlotCount(MaxConcurrentContainers);
      Smaller(all, Blocked(ips, ports));
    }
  }

  lemma PicksKeep(s: Sys, s': Sys)
    requires Inv(s) && Picks(s, s')
    ensures Inv(s') && s'.runner.Chosen?
  {
    FreeExists(s.runner.ips, s.runner.ports);
  }

  lemma CountsKeep(s: Sys, s': Sys)
    requires Inv(s) && Counts(s, s')
    ensures Inv(s')
  {
    forall t ensures t !in Blocked({}, {}) {}
    assert Blocked({}, {}) == {};
  }

  lemma RunnerKeeps(s: Sys, s': Sys)
    requires Inv(s) && RunnerStep(s, s')
    ensures Inv(s')
  {
    if id :| Reloads(s, id, s') {
      ReloadsKeep(s, id, s');
    } else if Picks(s, s') {
      PicksKeep(s, s');
    } else if Counts(s, s') {
      CountsKeep(s, s');
    } else {
      hide Blocked, Picks, Counts, Reloads;
    }
  }

  lemma DockerKeeps(s: Sys, s': Sys)
    requires Inv(s) && (DockerStep(s, s') || exists id :: Stops(s, id, s'))
    ensures Inv(s')
  {
    hide Blocked;
  }

  lemma StepKeeps(reliable: bool, tidy: bool, s: Sys, s': Sys)
    requires Inv(s) && Step(reliable, tidy, s, s')
    ensures Inv(s')
  {
    hide Inv, RunnerStep, DockerStep;
    if RunnerStep(s, s') {
      RunnerKeeps(s, s');
    } else if id :| Misses(s, id, s') {
      ReloadsKeep(s, id, s');
    } else {
      DockerKeeps(s, s');
    }
  }

  lemma StepOf(reliable: bool, tidy: bool, tr: seq<Sys>, i: nat)
    requires Run(reliable, tidy, tr) && i + 1 < |tr|
    ensures Step(reliable, tidy, tr[i], tr[i + 1])
  {
    hide Step;
  }

  lemma {:induction false} RunInv(reliable: bool, tidy: bool, tr: seq<Sys>, i: nat)
    requires Run(reliable, tidy, tr) && i < |tr|
    ensures Inv(tr[i])
    decreases i
  {
    if i > 0 {
      hide Run, Step, Inv;
      RunInv(reliable, tidy, tr, i - 1);
      StepOf(reliable, tidy, tr, i - 1);
      StepKeeps(reliable, tidy, tr[i - 1], tr[i]);
    }
  }

  /** No two live containers share an address or a host port. */
  ghost predicate Apart(live: map<nat, Container>) {
    forall i, j :: i in live && j in live && i != j ==>
      live[i].slot != live[j].slot && TargetPorts(live[i].slot) !! TargetPorts(live[j].slot)
  }

  lemma AtMostSlots(live: map<nat, Container>)
    requires Placed(live)
    ensures |live| <= MaxConcurrentContainers
  {
    var all := SlotCount(MaxConcurrentContainers);
    Injected(live, live.Keys, all);
  }

  lemma {:induction false} Injected(live: map<nat, Container>, ids: set<nat>, slots: set<int>)
    requires Placed(live) && ids <= live.Keys && forall i <- ids :: live[i].slot in slots
    ensures |ids| <= |slots|
    decreases |ids|
  {
    if ids != {} {
      var i :| i in ids;
      Injected(live, ids - {i}, slots - {live[i].slot});
    }
  }

  /** In every reachable state, whatever `reload` and the containers do: live
      containers are apart, there are never more than slots, the search never comes
      back empty, and the `get` of the image queue finds an image. */
  lemma SlotSafety(reliable: bool, tidy: bool, tr: seq<Sys>, i: nat)
    requires Run(reliable, tidy, tr) && i < |tr|
    ensures Apart(tr[i].live) && |tr[i].live| <= MaxConcurrentContainers
    ensures tr[i].runner != NoSlot && (tr[i].runner.Chosen? ==> tr[i].images > 0)
  {
    RunInv(reliable, tidy, tr, i);
    var live := tr[i].live;
    AtMostSlots(live);
    forall i, j | i in live && j in live && i != j ensures TargetPorts(live[i].slot) !! TargetPorts(live[j].slot) {
      SlotsApart(live[i].slot, live[j].slot);
    }
  }

  // ----- when an image is lost -----

  function IpsOf(live: map<nat, Container>, ids: set<nat>): set<int> {
    set i | i in ids && i in live && live[i].connected :: live[i].slot
  }

  function PortsOf(live: map<nat, Container>, ids: set<nat>): set<int> {
    set i, p | i in ids && i in live && p in TargetPorts(live[i].slot) :: p
  }

  ghost predicate HeldBy(live: map<nat, Container>, ids: set<nat>, slot: int) {
    exists i :: i in ids && i in live && live[i].slot == slot
  }

  lemma FreeIffNotHeld(live: map<nat, Container>, ids: set<nat>, slot: int)
    requires Placed(live) && IsSlot(slot)
    ensures Free(slot, IpsOf(live, ids), PortsOf(live, ids)) <==> !HeldBy(live, ids, slot)
  {
    if i :| i in ids && i in live && live[i].slot == slot {
      assert 8554 + slot in TargetPorts(slot) * PortsOf(live, ids);
    } else {
      forall p | p in PortsOf(live, ids) ensures p !in TargetPorts(slot) {
        var i :| i in ids && i in live && p in TargetPorts(live[i].slot);
        SlotsApart(slot, live[i].slot);
      }
    }
  }

  /** A scan that reads `seen` of the live containers picks the lowest slot none of
      them holds. Its name is taken, so that the image will be lost, exactly if a
      stopped container has that slot or a live one that was not read. */
  lemma CollisionExactly(s: Sys, seen: set<nat>, k: int)
    requires Placed(s.live) && Lowest(Some(k), IpsOf(s.live, seen), PortsOf(s.live, seen))
    ensures !HeldBy(s.live, seen, k) && forall t :: FirstSlot <= t < k ==> HeldBy(s.live, seen, t)
    ensures NameTaken(s, k) <==>
            || k in s.stopped
            || exists i :: i in s.live && i !in seen && !HeldBy(s.live, seen, s.live[i].slot)
                           && forall t :: FirstSlot <= t < s.live[i].slot ==> HeldBy(s.live, seen, t)
  {
    var live := s.live;
    forall t | IsSlot(t) ensures Free(t, IpsOf(live, seen), PortsOf(live, seen)) <==> !HeldBy(live, seen, t) {
      FreeIffNotHeld(live, seen, t);
    }
    hide IpsOf, PortsOf, Free;
    assert forall i <- live :: IsSlot(live[i].slot);
    if i :| i in live && live[i].slot == k {
      assert i !in seen;
    }
    if i :| i in live && i !in seen && !HeldBy(live, seen, live[i].slot)
            && forall t :: FirstSlot <= t < live[i].slot ==> HeldBy(live, seen, t) {
      assert live[i].slot == k;
    }
  }

  /** While all live containers are read and none stays when it stops: whatever is
      live is still to be read or blocks its slot, and the slot chosen is vacant. */
  ghost predicate Sure(s: Sys) {
    && s.stopped == {} && s.lost == 0
    && match s.runner
       case Listed(ids) => s.live.Keys <= ids
       case Scanning(rest, ips, ports) => forall i <- s.live :: i in rest || s.live[i].slot in Blocked(ips, ports)
       case Chosen(slot) => Vacant(s.live, slot)
       case HasImage(slot) => Vacant(s.live, slot)
       case _ => true
  }

  lemma SurePicks(s: Sys, s': Sys)
    requires Inv(s) && Sure(s) && Picks(s, s')
    ensures Sure(s')
  {
    PicksKeep(s, s');
  }

  lemma SureReloads(s: Sys, id: nat, s': Sys)
    requires Inv(s) && Sure(s) && Reloads(s, id, s')
    ensures Sure(s')
  {
    if id in s.live { ReloadBlocks(s.runner.ips, s.runner.ports, s.live[id]); }
    hide Blocked;
  }

  lemma SureStep(s: Sys, s': Sys)
    requires Inv(s) && Sure(s) && Step(true, true, s, s')
    ensures Sure(s')
  {
    if id :| Reloads(s, id, s') {
      SureReloads(s, id, s');
    } else if Picks(s, s') {
      SurePicks(s, s');
    } else {
      hide Blocked, Picks, Reloads, Inv;
    }
  }

  lemma {:induction false} RunSure(tr: seq<Sys>, i: nat)
    requires Run(true, true, tr) && i < |tr|
    ensures Sure(tr[i])
    decreases i
  {
    if i > 0 {
      hide Run, Step, Inv, Sure;
      StepOf(true, true, tr, i - 1);
      RunSure(tr, i - 1);
      RunInv(true, true, tr, i - 1);
      SureStep(tr[i - 1], tr[i]);
    }
  }

  lemma Extend(reliable: bool, tidy: bool, tr: seq<Sys>, s': Sys)
    requires Run(reliable, tidy, tr) && Step(reliable, tidy, tr[|tr| - 1], s')
    ensures Run(reliable, tidy, tr + [s'])
  {
    var next := tr + [s'];
    forall i | 0 <= i < |next| - 1 ensures Step(reliable, tidy, next[i], next[i + 1]) {
      if i < |tr| - 1 { assert Step(reliable, tidy, tr[i], tr[i + 1]); }
    }
  }

  /** The runner looks at the one container there may be, and misses it. */
  lemma SeesNothing(reliable: bool, tidy: bool, tr: seq<Sys>, s: Sys) returns (next: seq<Sys>)
    requires Run(reliable, tidy, tr) && tr[|tr| - 1] == s && s.runner == Idle && s.images > 0
    requires s.live.Keys <= {0} && (0 in s.live ==> !reliable)
    ensures Run(reliable, tidy, next) && next[|next| - 1] == s.(runner := Scanning({}, {}, {}))
  {
    Smaller(s.live.Keys, {0});
    var s1, s2 := s.(runner := Listed(s.live.Keys)), s.(runner := Scanning(s.live.Keys, {}, {}));
    var s3 := s.(runner := Scanning({}, {}, {}));
    assert Step(reliable, tidy, s, s1) by { assert Lists(s, s1); }
    assert Step(reliable, tidy, s1, s2) by { assert Counts(s1, s2); }
    assert 0 in s.live ==> Step(reliable, tidy, s2, s3) by {
      if 0 in s.live {
        assert s.live.Keys - {0} == {};
        assert Misses(s2, 0, s3);
      }
    }
    hide Run, Step;
    Extend(reliable, tidy, tr, s1);
    next := tr + [s1];
    Extend(reliable, tidy, next, s2);
    next := next + [s2];
    if 0 in s.live {
      Extend(reliable, tidy, next, s3);
      next := next + [s3];
    } else {
      assert s.live.Keys == {};
    }
  }

  /** From idle, with a container that is live missed, an image is taken for the
      first slot. */
  lemma TakeFirst(reliable: bool, tidy: bool, tr: seq<Sys>, s: Sys) returns (next: seq<Sys>)
    requires Run(reliable, tidy, tr) && tr[|tr| - 1] == s && s.runner == Idle && s.images > 0
    requires s.live.Keys <= {0} && (0 in s.live ==> !reliable)
    ensures Run(reliable, tidy, next)
    ensures next[|next| - 1] == s.(images := s.images - 1, runner := HasImage(FirstSlot))
  {
    next := SeesNothing(reliable, tidy, tr, s);
    var s3, s4 := next[|next| - 1], s.(runner := Chosen(FirstSlot));
    var s5 := s.(images := s.images - 1, runner := HasImage(FirstSlot));
    assert Step(reliable, tidy, s3, s4) by {
      assert Lowest(Some(FirstSlot), {}, {});
      assert Picks(s3, s4);
    }
    assert Step(reliable, tidy, s4, s5) by { assert Takes(s4, s5); }
    hide Run, Step;
    Extend(reliable, tidy, next, s4);
    next := next + [s4];
    Extend(reliable, tidy, next, s5);
    next := next + [s5];
  }

  /** The first container is missed, or has stopped and stays; the second image
      goes to the same slot and is lost. */
  lemma LosingRun(reliable: bool, tidy: bool) returns (tr: seq<Sys>)
    requires !reliable || !tidy
    ensures Run(reliable, tidy, tr) && tr[|tr| - 1].lost == 1
  {
    var start := Sys(2, map[], {}, Idle, 0);
    tr := TakeFirst(reliable, tidy, [start], start);
    var s1 := tr[|tr| - 1];
    var s2 := s1.(live := map[0 := Container(FirstSlot, false)], runner := Booted(0));
    assert Boots(s1, 0, s2);
    Extend(reliable, tidy, tr, s2);
    tr := tr + [s2];
    var s3 := s2.(runner := Idle);
    assert Recovers(s2, s3);
    Extend(reliable, tidy, tr, s3);
    tr := tr + [s3];
    if reliable {
      var s4 := s3.(live := map[], stopped := {FirstSlot});
      assert s3.live - {0} == map[];
      assert Stops(s3, 0, s4);
      Extend(reliable, tidy, tr, s4);
      tr := tr + [s4];
    }
    tr := TakeFirst(reliable, tidy, tr, tr[|tr| - 1]);
    var s5 := tr[|tr| - 1];
    assert NameTaken(s5, FirstSlot) by {
      if !reliable { assert 0 in s5.live && s5.live[0].slot == FirstSlot; }
    }
    var s6 := s5.(runner := Idle, lost := 1);
    assert Fails(s5, s6);
    Extend(reliable, tidy, tr, s6);
    tr := tr + [s6];
  }

  /** No run loses an image for a name in use exactly if live containers can always
      be read and stopped ones are removed. */
  lemma LossExactly(reliable: bool, tidy: bool)
    ensures reliable && tidy <==> forall tr: seq<Sys>, i: nat :: Run(reliable, tidy, tr) && i < |tr| ==> tr[i].lost == 0
  {
    if reliable && tidy {
      forall tr: seq<Sys>, i: nat | Run(reliable, tidy, tr) && i < |tr| ensures tr[i].lost == 0 {
        RunSure(tr, i);
      }
    } else {
      var tr := LosingRun(reliable, tidy);
      assert Run(reliable, tidy, tr) && tr[|tr| - 1].lost == 1;
    }
  }
}
