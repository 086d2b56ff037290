/**
 Convergence of best master selection in synchronous rounds: how far the root with the least
 identity has spread after a number of rounds, from below and from above, and the exact
 condition under which a bridge takes it over in a given round.
 */
module Convergence {
  import opened Priority
  import opened BestMaster
  import opened AnnounceInfo
  import opened Network
  import opened NetworkSafety
  import opened Rounds
  import opened Wrappers

  // ----- one port in one round

  /** Between rounds a port has answered everything and has the role it should have. */
  ghost predicate RestPort(p: Port, isGm: bool, gm: Vector) {
    && p.selected && !p.reselect && !p.rcvdMsg && RightRole(p, isGm)
    && (p.infoIs == InfoReceived ==> AtMost(gm, OneStepFurther(p.portPriority)))
  }

  /** The machine of the port has run since the port became enabled. */
  ghost predicate Awake(p: Port) {
    p.enabled ==> p.state != Disabled
  }

  /** The state of an enabled or disabled port, as far as the network invariant fixes it. */
  ghost predicate Sane(p: Port) {
    && Timely(p) && Settled(p) && Awake(p)
    && (!p.enabled ==> p.state == Disabled && p.infoIs == InfoDisabled)
    && (p.state == Aged ==> p.infoIs == InfoAged)
    && (p.state == Current ==> p.infoIs == InfoMine || p.infoIs == InfoReceived)
  }

  /** The announcement reaches the state machine of the port. */
  predicate Accepts(p: Port, o: Option<Announce>, system: Vector) {
    o.Some? && p.enabled && Qualified(o.value, system)
  }

  /** What a port holds after its pending update. */
  function Held(p: Port): Vector {
    if p.enabled && p.updtInfo then p.masterPriority else p.portPriority
  }

  /** One round of a port at rest: it takes an accepted message that is better than what it
      holds, and then asks for a selection; otherwise it stays at rest. */
  ghost predicate Outcome(p: Port, o: Option<Announce>, system: Vector, i: nat, isGm: bool, q: Port) {
    && Timely(q) && Awake(q) && q.enabled == p.enabled && !q.rcvdMsg && q.gmPathPriority == p.gmPathPriority
    && (q.reselect <==> Accepts(p, o, system) && Less(MessageVector(o.value, i), Held(p)))
    && (q.reselect ==> q.infoIs == InfoReceived && q.portPriority == MessageVector(o.value, i))
    && (!q.reselect ==>
          && q.selected && RightRole(q, isGm) && q.portPriority == Held(p)
          && (q.infoIs == InfoReceived <==> p.infoIs == InfoReceived && !p.updtInfo))
  }

  lemma PortRound(p: Port, o: Option<Announce>, system: Vector, i: nat, masterSteps: nat, gmPresent: bool, isGm: bool,
                  gm: Vector)
    requires RestPort(p, isGm, gm) && Sane(p)
    ensures Outcome(p, o, system, i, isGm, RunInfo(HearPort(p, o, system), i, masterSteps, gmPresent))
  {
    var h := HearPort(p, o, system);
    if !p.enabled {
      DisabledRun(h, i, masterSteps, gmPresent);
    } else {
      RunClosedForm(h, i, masterSteps, gmPresent);
      UpdatedRest(p, h, masterSteps, isGm);
      MessageOutcome(p, o, system, i, isGm, AfterUpdate(h, masterSteps));
    }
  }

  /** The pending update of an enabled port at rest. */
  ghost predicate Updated(p: Port, isGm: bool, u: Port) {
    && Timely(u) && u.enabled && u.state == Current && u.selected && !u.reselect && !u.updtInfo
    && u.gmPathPriority == p.gmPathPriority && u.portPriority == Held(p) && RightRole(u, isGm)
    && (u.infoIs == InfoReceived <==> p.infoIs == InfoReceived && !p.updtInfo)
  }

  lemma UpdatedRest(p: Port, h: Port, masterSteps: nat, isGm: bool)
    requires p.selected && !p.reselect && RightRole(p, isGm) && Sane(p) && p.enabled
    requires h == p.(received := h.received, rcvdMsg := h.rcvdMsg)
    ensures Updated(p, isGm, AfterUpdate(h, masterSteps))
  {
  }

  lemma MessageOutcome(p: Port, o: Option<Announce>, system: Vector, i: nat, isGm: bool, u: Port)
    requires p.enabled && Updated(p, isGm, u)
    requires match o
      case None => !u.rcvdMsg
      case Some(a) => u.received == a && u.rcvdMsg == Qualified(a, system)
    ensures Outcome(p, o, system, i, isGm, AfterMessage(u, i))
  {
  }

  // ----- one bridge in one round

  ghost predicate RestBridge(b: Bridge) {
    && b.gm != LastGm && b.selection == RoleSelection
    && (b.gm == SystemGm ==> b.pathTrace == [ClockOf(b.system.root)])
    && forall i :: 0 <= i < |b.ports| ==> Sane(b.ports[i]) && RestPort(b.ports[i], b.gm == PathGm(i), GmVector(b))
  }

  /** A bridge after hearing its inbox and running its machines. */
  function Ran(b: Bridge, inbox: seq<Option<Announce>>): (r: Bridge)
    requires |inbox| == |b.ports|
    ensures |r.ports| == |b.ports|
  {
    RunPorts(Hear(b, inbox))
  }

  lemma RanPort(b: Bridge, inbox: seq<Option<Announce>>, i: nat)
    requires |inbox| == |b.ports| && i < |b.ports| && RestBridge(b)
    ensures Outcome(b.ports[i], inbox[i], b.system, i, b.gm == PathGm(i), Ran(b, inbox).ports[i])
  {
    PortRound(b.ports[i], inbox[i], b.system, i, b.masterSteps, b.gmPresent, b.gm == PathGm(i), GmVector(b));
  }

  lemma RanBridge(b: Bridge, inbox: seq<Option<Announce>>)
    requires |inbox| == |b.ports| && RestBridge(b)
    ensures var p := Ran(b, inbox);
      && GmVector(p) == GmVector(b) && p == b.(ports := p.ports, pathTrace := HeardPath(b, inbox))
      && forall i :: 0 <= i < |b.ports| ==> Outcome(b.ports[i], inbox[i], b.system, i, b.gm == PathGm(i), p.ports[i])
  {
    var p := Ran(b, inbox);
    forall i | 0 <= i < |b.ports|
      ensures Outcome(b.ports[i], inbox[i], b.system, i, b.gm == PathGm(i), p.ports[i])
    {
      RanPort(b, inbox, i);
    }
    DerefSamePaths(b.gm, b.system, b.lastGm, b.ports, p.ports);
  }

  /** Without a request for selection the bridge is at rest again. */
  lemma StillAtRest(b: Bridge, inbox: seq<Option<Announce>>)
    requires |inbox| == |b.ports| && RestBridge(b) && !AnyReselect(Ran(b, inbox).ports)
    requires forall i :: 0 <= i < |b.ports| ==> Sane(Ran(b, inbox).ports[i])
    ensures RunSelection(Ran(b, inbox)) == Ran(b, inbox) && RestBridge(Ran(b, inbox))
  {
    var p := Ran(b, inbox);
    RanBridge(b, inbox);
    forall i | 0 <= i < |b.ports|
      ensures RestPort(p.ports[i], p.gm == PathGm(i), GmVector(p))
    {
      assert !p.ports[i].reselect;
    }
  }

  /** A selection over ports that have settled. */
  lemma SelectionAtRest(p: Bridge, i: nat)
    requires i < |p.ports| && Timely(p.ports[i]) && !p.ports[i].rcvdMsg
    ensures var r := SelectRoles(p);
      && |r.ports| == |p.ports| && r.gm != LastGm
      && (r.gm == SystemGm ==> r.pathTrace == [ClockOf(p.system.root)])
      && (r.gm != SystemGm ==> r.pathTrace == p.pathTrace)
      && KeepsInfo(p.ports[i], r.ports[i])
      && r.ports[i].selected && !r.ports[i].reselect && RightRole(r.ports[i], r.gm == PathGm(i))
      && r.ports[i].gmPathPriority == OneStepFurther(p.ports[i].portPriority)
      && (ClockOf(p.ports[i].portPriority.root) != ClockOf(p.system.root) ==>
           AtMost(GmVector(r), OneStepFurther(p.ports[i].portPriority)))
  {
    var c := p.(ports := SetReselect(p.ports, false));
    SelectRolesIsUpdt(p);
    GmSelected(c);
    RolesSelected(c, i);
    UpdtKeeps(c, i);
    var u := UpdtRoles(c);
    assert SelectRoles(p).ports[i] == u.ports[i].(selected := true);
    if ClockOf(p.ports[i].portPriority.root) != ClockOf(p.system.root) {
      assert Foreign(c.system, u.ports[i]);
    }
  }

  // ----- the network between rounds

  /** A link whose two ends are enabled. */
  ghost predicate LiveLink(t: Topology, up: seq<seq<bool>>, e: nat, j: nat) {
    && |up| == |t.peers| && e < |t.peers| && |up[e]| == |t.peers[e]| && j < |t.peers[e]| && up[e][j]
    && t.peers[e][j].To? && t.peers[e][j].bridge < |up| && t.peers[e][j].port < |up[t.peers[e][j].bridge]|
    && up[t.peers[e][j].bridge][t.peers[e][j].port]
  }

  /** The ports that are enabled, which no round changes. */
  ghost predicate EnabledAs(n: Net, up: seq<seq<bool>>) {
    && |up| == |n.bridges|
    && (forall e :: 0 <= e < |up| ==> |up[e]| == |n.bridges[e].ports|)
    && (forall e, j :: 0 <= e < |up| && 0 <= j < |up[e]| ==> n.bridges[e].ports[j].enabled == up[e][j])
  }

  ghost predicate RestNet(t: Topology, up: seq<seq<bool>>, n: Net) {
    && NetOk(t, n) && Quiet(n) && EnabledAs(n, up)
    && (forall e :: 0 <= e < |n.bridges| ==> RestBridge(n.bridges[e]))
    && (forall e, j :: 0 <= e < |up| && 0 <= j < |up[e]| && n.bridges[e].ports[j].infoIs == InfoReceived ==>
         LiveLink(t, up, e, j))
  }

  lemma SanePort(ids: seq<nat>, self: nat, b: Bridge, i: nat)
    requires self < |ids| && BridgeOk(ids, self, b) && i < |b.ports|
    ensures Awake(b.ports[i]) ==> Sane(b.ports[i])
    ensures b.ports[i].infoIs == InfoReceived ==>
      b.ports[i].portPriority.root in ids && b.ports[i].portPriority.root != ids[self]
  {
    assert PortOk(ids, self, b.gm != LastGm, b.gm == PathGm(i), GmVector(b).root, b.masterSteps, b.ports[i]);
  }

  /** The grandmaster's port. */
  lemma GmReceived(ids: seq<nat>, self: nat, b: Bridge)
    requires self < |ids| && BridgeOk(ids, self, b)
    ensures b.gm.PathGm? ==>
      && b.gm.port < |b.ports| && b.ports[b.gm.port].infoIs == InfoReceived
      && b.ports[b.gm.port].portPriority.steps <= 255
      && AtMost(OneStepFurther(b.ports[b.gm.port].portPriority), GmVector(b))
  {
    if b.gm.PathGm? {
      assert PortOk(ids, self, b.gm != LastGm, true, GmVector(b).root, b.masterSteps, b.ports[b.gm.port]);
    }
  }

  lemma ClocksDiffer(t: Topology, e: nat, root: nat)
    requires ValidTopology(t) && e < |t.ids| && root in t.ids && root != t.ids[e]
    ensures ClockOf(root) != ClockOf(t.ids[e])
  {
    var c :| 0 <= c < |t.ids| && t.ids[c] == root;
    DistinctClocks(t, e, c);
  }

  lemma SelectionCases(p: Bridge)
    requires p.selection == RoleSelection
    ensures RunSelection(p) == if AnyReselect(p.ports) then SelectRoles(p) else p
  {
  }

  /** A round leaves a bridge at rest, provided it leaves it sound. */
  lemma BridgeStaysAtRest(t: Topology, e: nat, b: Bridge, inbox: seq<Option<Announce>>, r: Bridge)
    requires ValidTopology(t) && e < |t.ids| && |inbox| == |b.ports| && RestBridge(b)
    requires b.system == SystemVector(t.ids[e])
    requires BridgeOk(t.ids, e, r) && r == RunSelection(Ran(b, inbox))
    ensures RestBridge(r)
  {
    RanBridge(b, inbox);
    SelectionCases(Ran(b, inbox));
    if !AnyReselect(Ran(b, inbox).ports) {
      AllSane(t.ids, e, r);
      StillAtRest(b, inbox);
    } else {
      RestAfterSelecting(t, e, b, inbox, Ran(b, inbox), r);
    }
  }

  lemma RestAfterSelecting(t: Topology, e: nat, b: Bridge, inbox: seq<Option<Announce>>, p: Bridge, r: Bridge)
    requires ValidTopology(t) && e < |t.ids| && b.system == SystemVector(t.ids[e]) && b.selection == RoleSelection
    requires |inbox| == |b.ports| == |p.ports| && p == b.(ports := p.ports, pathTrace := p.pathTrace)
    requires forall i :: 0 <= i < |b.ports| ==>
      Outcome(b.ports[i], inbox[i], b.system, i, b.gm == PathGm(i), p.ports[i])
    requires BridgeOk(t.ids, e, r) && AnyReselect(p.ports) && r == SelectRoles(p)
    ensures RestBridge(r)
  {
    forall i | 0 <= i < |p.ports|
      ensures Timely(p.ports[i]) && !p.ports[i].rcvdMsg && Awake(p.ports[i])
    {
      assert Outcome(b.ports[i], inbox[i], b.system, i, b.gm == PathGm(i), p.ports[i]);
    }
    SelectingRest(t, e, p);
  }

  lemma AllSane(ids: seq<nat>, self: nat, b: Bridge)
    requires self < |ids| && BridgeOk(ids, self, b) && forall i :: 0 <= i < |b.ports| ==> Awake(b.ports[i])
    ensures forall i :: 0 <= i < |b.ports| ==> Sane(b.ports[i])
  {
    forall i | 0 <= i < |b.ports|
      ensures Sane(b.ports[i])
    {
      SanePort(ids, self, b, i);
    }
  }

  lemma SelectingRest(t: Topology, e: nat, p: Bridge)
    requires ValidTopology(t) && e < |t.ids| && p.system == SystemVector(t.ids[e]) && p.selection == RoleSelection
    requires AnyReselect(p.ports)
    requires forall i :: 0 <= i < |p.ports| ==> Timely(p.ports[i]) && !p.ports[i].rcvdMsg && Awake(p.ports[i])
    requires BridgeOk(t.ids, e, SelectRoles(p))
    ensures RestBridge(SelectRoles(p))
  {
    var r := SelectRoles(p);
    SelectRolesIsUpdt(p);
    forall i | 0 <= i < |r.ports|
      ensures Sane(r.ports[i]) && RestPort(r.ports[i], r.gm == PathGm(i), GmVector(r))
    {
      SelectedAtRest(t, e, p, i);
    }
    var i :| 0 <= i < |p.ports| && p.ports[i].reselect;
    SelectionAtRest(p, i);
    SelectionStays(p);
  }

  lemma SelectionStays(p: Bridge)
    ensures SelectRoles(p).selection == p.selection && SelectRoles(p).system == p.system
  {
  }

  lemma SelectedAtRest(t: Topology, e: nat, p: Bridge, i: nat)
    requires ValidTopology(t) && e < |t.ids| && p.system == SystemVector(t.ids[e])
    requires i < |p.ports| && Timely(p.ports[i]) && !p.ports[i].rcvdMsg && Awake(p.ports[i])
    requires BridgeOk(t.ids, e, SelectRoles(p))
    ensures var r := SelectRoles(p);
      |r.ports| == |p.ports| && Sane(r.ports[i]) && RestPort(r.ports[i], r.gm == PathGm(i), GmVector(r))
  {
    var r := SelectRoles(p);
    SelectionAtRest(p, i);
    SanePort(t.ids, e, r, i);
    if r.ports[i].infoIs == InfoReceived {
      ClocksDiffer(t, e, r.ports[i].portPriority.root);
    }
  }

  /** What the ports of a bridge hold after a round: what they held, or what they heard. */
  lemma HeldAfter(b: Bridge, inbox: seq<Option<Announce>>, i: nat)
    requires |inbox| == |b.ports| && RestBridge(b) && i < |b.ports|
    ensures var p, r := Ran(b, inbox), RunSelection(Ran(b, inbox));
      && |r.ports| == |b.ports| && r.ports[i].enabled == b.ports[i].enabled
      && r.ports[i].infoIs == p.ports[i].infoIs && r.ports[i].portPriority == p.ports[i].portPriority
  {
    var p := Ran(b, inbox);
    RanBridge(b, inbox);
    if AnyReselect(p.ports) {
      SelectionAtRest(p, i);
    }
  }

  /** A port that announces is enabled. */
  lemma MasterEnabled(b: Bridge, k: nat)
    requires RestBridge(b) && k < |b.ports| && b.ports[k].role == Master
    ensures b.ports[k].enabled
  {
    assert Sane(b.ports[k]) && RestPort(b.ports[k], b.gm == PathGm(k), GmVector(b));
  }

  lemma OfferedLive(t: Topology, up: seq<seq<bool>>, n: Net, e: nat, j: nat)
    requires RestNet(t, up, n) && e < |t.peers| && j < |t.peers[e]| && Offered(t, n, e, j).Some?
    requires n.bridges[e].ports[j].enabled
    ensures LiveLink(t, up, e, j)
  {
    assert ValidPeer(t, e, j);
    MasterEnabled(n.bridges[t.peers[e][j].bridge], t.peers[e][j].port);
  }

  /** Where a port's information after a round comes from. */
  lemma ReceivedFrom(t: Topology, up: seq<seq<bool>>, n: Net, e: nat, j: nat)
    requires RestNet(t, up, n) && e < |t.peers| && j < |t.peers[e]|
    ensures var r := RoundBridge(t, n, e);
      && |r.ports| == |t.peers[e]| && r.ports[j].enabled == up[e][j]
      && (r.ports[j].infoIs == InfoReceived ==>
            && LiveLink(t, up, e, j)
            && ((Offered(t, n, e, j).Some? && r.ports[j].portPriority == MessageVector(Offered(t, n, e, j).value, j))
                || (n.bridges[e].ports[j].infoIs == InfoReceived
                  && r.ports[j].portPriority == n.bridges[e].ports[j].portPriority)))
  {
    var b, inbox := n.bridges[e], Inbox(t, n, e);
    HeldAfter(b, inbox, j);
    RanPort(b, inbox, j);
    var p := Ran(b, inbox);
    if p.ports[j].infoIs == InfoReceived && p.ports[j].reselect {
      OfferedLive(t, up, n, e, j);
    }
  }

  /** Rounds take the network from rest to rest. */
  lemma RoundRest(t: Topology, up: seq<seq<bool>>, n: Net, r: Round)
    requires RestNet(t, up, n) && FullRound(t, n, r)
    ensures RestNet(t, up, Steps(t, n, ActionsOf(r)))
    ensures forall e :: 0 <= e < |t.peers| ==> Steps(t, n, ActionsOf(r)).bridges[e] == RoundBridge(t, n, e)
  {
    RoundClosed(t, n, r);
    var m := Steps(t, n, ActionsOf(r));
    forall e | 0 <= e < |t.peers|
      ensures RestBridge(m.bridges[e])
    {
      assert BridgeOk(t.ids, e, n.bridges[e]) && BridgeOk(t.ids, e, m.bridges[e]);
      BridgeStaysAtRest(t, e, n.bridges[e], Inbox(t, n, e), m.bridges[e]);
    }
    forall e, j | 0 <= e < |up| && 0 <= j < |up[e]|
      ensures m.bridges[e].ports[j].enabled == up[e][j]
      ensures m.bridges[e].ports[j].infoIs == InfoReceived ==> LiveLink(t, up, e, j)
    {
      ReceivedFrom(t, up, n, e, j);
    }
  }

  // ----- the first round

  lemma InitialPortFacts(p: Port, i: nat)
    requires Timely(p) && p == InitialPort(p.enabled, p.timers, i)
    ensures p.reselect && !p.rcvdMsg && p.infoIs != InfoReceived && p.role == RoleDisabled
    ensures NextInfo(p, false) == p.state && p.state != Current && Awake(p)
  {
    RunSettles(PoweredUp(p.enabled, p.timers), i, 0, false);
    var z := PoweredUp(p.enabled, p.timers);
    var d := InfoPass(z, i, 0, false);
    assert d == EnterDisabled(z);
    assert RunInfo(z, i, 0, false) == RunInfo(d, i, 0, false);
    if p.enabled {
      var a := InfoPass(d, i, 0, false);
      assert RunInfo(a, i, 0, false) == a;
    }
  }

  lemma RunInfoSettled(p: Port, i: nat, masterSteps: nat, gmPresent: bool)
    requires NextInfo(p, false) == p.state && p.state != Current
    ensures RunInfo(p, i, masterSteps, gmPresent) == p
  {
  }

  /** Nobody announces before the first selection, and the machines have nothing to do. */
  lemma InitialRun(b: Bridge, id: nat, inbox: seq<Option<Announce>>)
    requires InitialBridge(id, b) && |inbox| == |b.ports| && forall j :: 0 <= j < |inbox| ==> inbox[j] == None
    ensures Ran(b, inbox) == b
  {
    var p := Ran(b, inbox);
    forall i | 0 <= i < |b.ports|
      ensures p.ports[i] == b.ports[i]
    {
      InitialPortFacts(b.ports[i], i);
      RunInfoSettled(b.ports[i], i, b.masterSteps, b.gmPresent);
    }
    assert p.ports == b.ports;
    if SlavePort(b) { assert false; }
  }

  lemma NothingOffered(t: Topology, n: Net, e: nat, j: nat)
    requires ValidTopology(t) && Initial(t, n) && e < |t.peers| && j < |t.peers[e]|
    ensures Offered(t, n, e, j) == None
  {
    assert ValidPeer(t, e, j);
    match t.peers[e][j]
    case Open =>
    case To(c, k) => InitialPortFacts(n.bridges[c].ports[k], k);
  }

  /** A bridge after the first round: its own grandmaster, at rest. */
  lemma FirstSelection(t: Topology, e: nat, b: Bridge, r: Bridge)
    requires ValidTopology(t) && e < |t.ids| && InitialBridge(t.ids[e], b) && b.ports != []
    requires r == RunSelection(b) && BridgeOk(t.ids, e, r)
    ensures RestBridge(r) && r.gm == SystemGm && |r.ports| == |b.ports|
    ensures forall i :: 0 <= i < |r.ports| ==>
      r.ports[i].infoIs != InfoReceived && r.ports[i].enabled == b.ports[i].enabled
  {
    forall i | 0 <= i < |b.ports|
      ensures b.ports[i].reselect && Timely(b.ports[i]) && !b.ports[i].rcvdMsg && b.ports[i].infoIs != InfoReceived
      ensures Awake(b.ports[i])
    {
      InitialPortFacts(b.ports[i], i);
    }
    assert b.ports[0].reselect;
    SelectionCases(b);
    SelectingRest(t, e, b);
    forall i | 0 <= i < |b.ports|
      ensures |r.ports| == |b.ports| && r.ports[i].infoIs != InfoReceived && r.ports[i].enabled == b.ports[i].enabled
    {
      SelectionAtRest(b, i);
    }
    GmReceived(t.ids, e, r);
  }

  /** The first round of a network that just started. */
  lemma FirstRound(t: Topology, up: seq<seq<bool>>, n: Net, r: Round)
    requires ValidTopology(t) && Initial(t, n) && EnabledAs(n, up) && FullRound(t, n, r)
    requires forall e :: 0 <= e < |t.peers| ==> t.peers[e] != []
    ensures var m := Steps(t, n, ActionsOf(r));
      && RestNet(t, up, m)
      && (forall e :: 0 <= e < |t.peers| ==> m.bridges[e].gm == SystemGm)
      && (forall e, j :: 0 <= e < |t.peers| && 0 <= j < |t.peers[e]| ==> m.bridges[e].ports[j].infoIs != InfoReceived)
  {
    InitialOk(t, n);
    RoundClosed(t, n, r);
    var m := Steps(t, n, ActionsOf(r));
    forall e | 0 <= e < |t.peers|
      ensures RestBridge(m.bridges[e]) && m.bridges[e].gm == SystemGm
      ensures forall j :: 0 <= j < |t.peers[e]| ==>
        m.bridges[e].ports[j].infoIs != InfoReceived && m.bridges[e].ports[j].enabled == n.bridges[e].ports[j].enabled
    {
      forall j | 0 <= j < |t.peers[e]|
        ensures Inbox(t, n, e)[j] == None
      {
        NothingOffered(t, n, e, j);
      }
      InitialRun(n.bridges[e], t.ids[e], Inbox(t, n, e));
      assert BridgeOk(t.ids, e, m.bridges[e]);
      FirstSelection(t, e, n.bridges[e], m.bridges[e]);
    }
  }
}
