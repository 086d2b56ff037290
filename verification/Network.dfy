/**
 A network of bridges running best master selection, as interleaved steps over in-order links
 (ptp/gptpstatmch.c, ptp/vtss_gptp.c).
 */
module Network {
  import opened Priority
  import opened BestMaster
  import opened AnnounceInfo

  /** Where a port is connected. */
  datatype Peer = Open | To(bridge: nat, port: nat)

  /** The system identities of the bridges and the links between their ports. */
  datatype Topology = Topology(ids: seq<nat>, peers: seq<seq<Peer>>)

  /** Identities are 14 bytes with distinct clock identities; links join ports of different
      bridges, both ways. */
  ghost predicate ValidTopology(t: Topology) {
    && |t.ids| == |t.peers|
    && (forall b :: 0 <= b < |t.ids| ==> t.ids[b] < ROOTS)
    && (forall b, c :: 0 <= b < c < |t.ids| ==> ClockOf(t.ids[b]) != ClockOf(t.ids[c]))
    && (forall b, i :: 0 <= b < |t.ids| && 0 <= i < |t.peers[b]| ==> ValidPeer(t, b, i))
  }

  ghost predicate ValidPeer(t: Topology, b: nat, i: nat)
    requires b < |t.peers| && i < |t.peers[b]|
  {
    match t.peers[b][i]
    case Open => true
    case To(c, j) => c < |t.peers| && c != b && j < |t.peers[c]| && t.peers[c][j] == To(b, i)
  }

  /** The bridges, and for each port the frames under way to it, oldest first. */
  datatype Net = Net(bridges: seq<Bridge>, wires: seq<seq<seq<Announce>>>)

  ghost predicate Shaped(t: Topology, n: Net) {
    && |n.bridges| == |n.wires| == |t.peers|
    && (forall b :: 0 <= b < |t.peers| ==> |n.bridges[b].ports| == |n.wires[b]| == |t.peers[b]|)
  }

  /** The system vector of a bridge. */
  function SystemVector(id: nat): Vector {
    Vector(id, 0, ClockOf(id), 0, 0)
  }

  /** The clock identity written into announce frames: the fourth to sixth byte of the identity
      behind a second pair FF FE, so that its last two bytes are lost. */
  function WireSource(clock: nat): nat {
    clock / 0x100_0000_0000 * 0x100_0000_0000 + 0xFFFE * 0x100_0000 + clock / 0x1_0000 % 0x100_0000
  }

  /** `transmit_announce`. */
  function AnnounceOf(b: Bridge, i: nat): Announce {
    Announce(GmVector(b).root, b.masterSteps, WireSource(ClockOf(b.system.root)), i + 1, b.pathTrace)
  }

  /** It is the clock identity exactly if its last five bytes are FF FE FF FE FF. */
  lemma WireSourceIs(clock: nat)
    requires clock < CLOCKS
    ensures WireSource(clock) == clock <==> clock % 0x100_0000_0000 == 0xFF_FEFF_FEFF
  {
    var top, low := clock / 0x100_0000_0000, clock % 0x100_0000_0000;
    assert clock / 0x1_0000 == top * 0x100_0000 + low / 0x1_0000;
    assert clock / 0x1_0000 % 0x100_0000 == low / 0x1_0000;
  }

  /** So a bridge takes its own announcement for another's, unless it has such an identity or
      is on the path it announces. */
  lemma OwnAnnouncement(id: nat, b: Bridge, i: nat)
    requires id < ROOTS && b.system == SystemVector(id) && b.masterSteps <= 255
    ensures Qualified(AnnounceOf(b, i), b.system) <==>
      ClockOf(id) % 0x100_0000_0000 != 0xFF_FEFF_FEFF && ClockOf(id) !in b.pathTrace
  {
    WireSourceIs(ClockOf(id));
  }

  // ----- steps

  datatype Action =
    | Send(bridge: nat, port: nat)
    | Deliver(bridge: nat, port: nat)
    | RunMachine(bridge: nat, port: nat)
    | Select(bridge: nat)
    | Enable(bridge: nat, port: nat)

  predicate HasPort(n: Net, b: nat, i: nat) {
    b < |n.bridges| && b < |n.wires| && i < |n.bridges[b].ports| && i < |n.wires[b]|
  }

  function SetBridge(n: Net, b: nat, s: Bridge): Net
    requires b < |n.bridges|
  {
    n.(bridges := n.bridges[b := s])
  }

  function SetWire(n: Net, b: nat, i: nat, q: seq<Announce>): Net
    requires HasPort(n, b, i)
  {
    n.(wires := n.wires[b := n.wires[b][i := q]])
  }

  /** The peer delay machine finds the port capable. */
  function EnablePort(b: Bridge, i: nat): Bridge
    requires i < |b.ports|
  {
    b.(ports := b.ports[i := b.ports[i].(enabled := true)])
  }

  /** One step of the network. A master port announces; a frame is delivered; a port machine
      or the role selection of a bridge runs; a port becomes enabled. Steps that are not
      possible do nothing. */
  function Step(t: Topology, n: Net, a: Action): Net {
    match a
    case Send(b, i) =>
      if HasPort(n, b, i) && n.bridges[b].ports[i].role == Master
         && b < |t.peers| && i < |t.peers[b]| && t.peers[b][i].To?
         && HasPort(n, t.peers[b][i].bridge, t.peers[b][i].port)
      then
        var c, j := t.peers[b][i].bridge, t.peers[b][i].port;
        SetWire(n, c, j, n.wires[c][j] + [AnnounceOf(n.bridges[b], i)])
      else n
    case Deliver(b, i) =>
      if HasPort(n, b, i) && n.wires[b][i] != [] then
        SetWire(SetBridge(n, b, ReceiveAnnounce(n.bridges[b], i, n.wires[b][i][0])), b, i, n.wires[b][i][1..])
      else n
    case RunMachine(b, i) =>
      if HasPort(n, b, i) then SetBridge(n, b, RunPort(n.bridges[b], i)) else n
    case Select(b) =>
      if b < |n.bridges| then SetBridge(n, b, RunSelection(n.bridges[b])) else n
    case Enable(b, i) =>
      if HasPort(n, b, i) then SetBridge(n, b, EnablePort(n.bridges[b], i)) else n
  }

  function Steps(t: Topology, n: Net, actions: seq<Action>): Net {
    if actions == [] then n else Step(t, Steps(t, n, actions[..|actions| - 1]), actions[|actions| - 1])
  }

  // ----- the initial state

  /** A port of a zeroed bridge. */
  function PoweredUp(enabled: bool, timers: Timers): Port {
    var zero := Vector(0, 0, 0, 0, 0);
    Port(enabled, Begin, InfoDisabled, RoleDisabled, zero, zero, zero, zero, 0, false, false, false, false,
         Announce(0, 0, 0, 0, []), RepeatedInfo, timers)
  }

  /** The same port after the first tick, which runs its machine before any role selection. */
  function InitialPort(enabled: bool, timers: Timers, i: nat): Port {
    RunInfo(PoweredUp(enabled, timers), i, 0, false)
  }

  ghost predicate InitialBridge(id: nat, b: Bridge) {
    && b.system == SystemVector(id) && b.gm == LastGm && b.lastGm == NOTHING && b.masterSteps == 0
    && b.selection == RoleSelection && b.pathTrace == [ClockOf(id)]
    && forall i :: 0 <= i < |b.ports| ==>
         Timely(b.ports[i]) && b.ports[i] == InitialPort(b.ports[i].enabled, b.ports[i].timers, i)
  }

  /** Every bridge after its first tick, nothing under way, receipt timeouts not at zero. */
  ghost predicate Initial(t: Topology, n: Net) {
    && Shaped(t, n)
    && (forall b :: 0 <= b < |t.ids| && b < |n.bridges| ==> InitialBridge(t.ids[b], n.bridges[b]))
    && (forall b, i :: 0 <= b < |n.wires| && 0 <= i < |n.wires[b]| ==> n.wires[b][i] == [])
  }

  // ----- the invariant

  /** The order of (root, stepsRemoved). */
  ghost predicate PairAtMost(r1: nat, s1: nat, r2: nat, s2: nat) {
    r1 < r2 || (r1 == r2 && s1 <= s2)
  }

  ghost predicate PairLess(r1: nat, s1: nat, r2: nat, s2: nat) {
    r1 < r2 || (r1 == r2 && s1 < s2)
  }

  /** What a bridge announces: a known root, at distance 0 exactly if it is the bridge itself. */
  ghost predicate KnownRoot(ids: seq<nat>, self: nat, root: nat, steps: nat)
    requires self < |ids|
  {
    root in ids && steps <= 256 && (root == ids[self] <==> steps == 0)
  }

  /** The state of one port, in a bridge whose grandmaster pair is (gr, gs). */
  ghost predicate PortOk(ids: seq<nat>, self: nat, chosen: bool, isGm: bool, gr: nat, gs: nat, p: Port)
    requires self < |ids|
  {
    && Timely(p)
    && (!p.enabled ==> p.state == Disabled && !p.rcvdMsg)
    && Settled(p)
    && (p.state == Disabled ==> p.infoIs == InfoDisabled)
    && (p.state == Aged ==> p.infoIs == InfoAged)
    && (p.state == Current ==> p.infoIs == InfoMine || p.infoIs == InfoReceived)
    && (p.state != Current ==> p.portPriority == NOTHING)
    && (p.state == Current ==> PairAtMost(p.portPriority.root, p.portPriority.steps, ids[self], 0))
    && (p.infoIs == InfoMine ==>
          chosen && p.portPriority.steps <= 256 && PairAtMost(gr, gs, p.portPriority.root, p.portPriority.steps))
    && (p.infoIs == InfoReceived ==>
          p.portPriority.root in ids && p.portPriority.root != ids[self] && p.portPriority.steps <= 255
          && p.messagePriority == p.portPriority)
    && (p.selected ==> chosen)
    && (p.role != RoleDisabled ==> chosen)
    && (p.role == Slave ==> isGm)
    && (isGm ==>
          p.infoIs == InfoReceived && !p.updtInfo && AtMost(OneStepFurther(p.portPriority), p.gmPathPriority))
  }

  /** The state of one bridge. */
  ghost predicate BridgeOk(ids: seq<nat>, self: nat, b: Bridge)
    requires self < |ids|
  {
    && b.system == SystemVector(ids[self]) && b.selection == RoleSelection
    && (b.gm == LastGm ==> b.lastGm == NOTHING && b.masterSteps == 0)
    && (b.gm == SystemGm ==> b.masterSteps == 0)
    && (b.gm.PathGm? ==> b.gm.port < |b.ports|)
    && (b.gm != LastGm ==>
          && b.masterSteps == GmVector(b).steps
          && KnownRoot(ids, self, GmVector(b).root, b.masterSteps)
          && PairAtMost(GmVector(b).root, b.masterSteps, ids[self], 0)
          && (forall i :: 0 <= i < |b.ports| ==> b.ports[i].masterPriority == MasterVector(GmVector(b), b.system, i)))
    && (forall i :: 0 <= i < |b.ports| ==>
          PortOk(ids, self, b.gm != LastGm, b.gm == PathGm(i), GmVector(b).root, b.masterSteps, b.ports[i]))
  }

  /** A message of bridge `peer`, sent by its port `port`. */
  ghost predicate FromPeer(ids: seq<nat>, peer: nat, port: nat, a: Announce)
    requires peer < |ids|
  {
    && KnownRoot(ids, peer, a.root, a.steps)
    && a.source == WireSource(ClockOf(ids[peer])) && a.sourcePort == port + 1
  }

  /** Along a link, what a port holds, what waits in it, what is under way, and what the peer
      announces now follow each other in non-increasing order. */
  ghost predicate LinkOk(ids: seq<nat>, peer: nat, port: nat, xr: nat, xs: nat, i: nat, p: Port, q: seq<Announce>)
    requires peer < |ids|
  {
    && (forall k :: 0 <= k < |q| ==> FromPeer(ids, peer, port, q[k]) && PairAtMost(xr, xs, q[k].root, q[k].steps))
    && (forall k, l :: 0 <= k < l < |q| ==> PairAtMost(q[l].root, q[l].steps, q[k].root, q[k].steps))
    && (p.rcvdMsg ==>
          && FromPeer(ids, peer, port, p.received) && p.received.steps <= 255
          && PairAtMost(xr, xs, p.received.root, p.received.steps)
          && (forall k :: 0 <= k < |q| ==> PairAtMost(q[k].root, q[k].steps, p.received.root, p.received.steps)))
    && (p.infoIs == InfoReceived ==>
          && p.portPriority.source == WireSource(ClockOf(ids[peer])) && p.portPriority.sourcePort == port + 1
          && p.portPriority.rxPort == PortNumber(i)
          && PairAtMost(xr, xs, p.portPriority.root, p.portPriority.steps)
          && (p.rcvdMsg ==> PairAtMost(p.received.root, p.received.steps, p.portPriority.root, p.portPriority.steps))
          && (forall k :: 0 <= k < |q| ==>
               PairAtMost(q[k].root, q[k].steps, p.portPriority.root, p.portPriority.steps)))
  }

  ghost predicate EndOk(t: Topology, n: Net, b: nat, i: nat)
    requires ValidTopology(t) && Shaped(t, n) && b < |t.peers| && i < |t.peers[b]|
  {
    var p, q := n.bridges[b].ports[i], n.wires[b][i];
    match t.peers[b][i]
    case Open => q == [] && !p.rcvdMsg && p.infoIs != InfoReceived
    case To(c, j) =>
      assert ValidPeer(t, b, i);
      LinkOk(t.ids, c, j, GmVector(n.bridges[c]).root, n.bridges[c].masterSteps, i, p, q)
  }

  ghost predicate NetOk(t: Topology, n: Net) {
    && ValidTopology(t) && Shaped(t, n)
    && (forall b :: 0 <= b < |t.ids| ==> BridgeOk(t.ids, b, n.bridges[b]))
    && (forall b, i :: 0 <= b < |t.ids| && 0 <= i < |t.peers[b]| ==> EndOk(t, n, b, i))
  }
}
