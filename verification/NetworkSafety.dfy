/**
 Safety of best master selection over every interleaving of announces, deliveries, port
 machines and role selections: the invariant of module Network is kept by every step, no
 bridge's grandmaster ever gets worse, and slave ports point strictly upstream.
 */
module NetworkSafety {
  import opened Priority
  import opened BestMaster
  import opened AnnounceInfo
  import opened Network

  // ----- one port

  lemma UpdateKeepsPort(ids: seq<nat>, self: nat, isGm: bool, gm: Vector, system: Vector, i: nat, p: Port)
    requires self < |ids| && PortOk(ids, self, true, isGm, gm.root, gm.steps, p)
    requires p.enabled && gm.steps <= 256 && PairAtMost(gm.root, gm.steps, ids[self], 0)
    requires p.masterPriority == MasterVector(gm, system, i)
    ensures PortOk(ids, self, true, isGm, gm.root, gm.steps, AfterUpdate(p, gm.steps))
  {
  }

  /** What the comparison of a message with the held vector means under the link invariant. */
  lemma SuperiorMessage(ids: seq<nat>, self: nat, peer: nat, port: nat, i: nat, held: Vector, a: Announce)
    requires self < |ids| && peer < |ids| && FromPeer(ids, peer, port, a)
    requires ClockOf(ids[self]) != ClockOf(ids[peer])
    requires PairAtMost(held.root, held.steps, ids[self], 0) && Less(MessageVector(a, i), held)
    ensures a.root != ids[self] && PairAtMost(a.root, a.steps, ids[self], 0)
  {
  }

  lemma NotInferior(held: Vector, m: Vector)
    requires PairAtMost(m.root, m.steps, held.root, held.steps)
    requires held.source == m.source && held.sourcePort == m.sourcePort && held.rxPort == m.rxPort
    ensures RcvInfo(held, m) != InferiorInfo
  {
  }

  lemma FurtherMonotone(a: Vector, b: Vector, c: Vector)
    requires Less(a, b) && a.steps <= 255 && b.steps <= 255 && AtMost(OneStepFurther(b), c)
    ensures AtMost(OneStepFurther(a), c)
  {
  }

  /** Taking the message a port holds keeps the port and link invariants. */
  lemma MessageKeepsPort(ids: seq<nat>, self: nat, peer: nat, port: nat, chosen: bool, isGm: bool, gr: nat, gs: nat,
                         xr: nat, xs: nat, i: nat, p: Port, q: seq<Announce>)
    requires self < |ids| && peer < |ids| && ClockOf(ids[self]) != ClockOf(ids[peer])
    requires PortOk(ids, self, chosen, isGm, gr, gs, p) && LinkOk(ids, peer, port, xr, xs, i, p, q) && p.enabled
    ensures PortOk(ids, self, chosen, isGm, gr, gs, AfterMessage(p, i))
    ensures LinkOk(ids, peer, port, xr, xs, i, AfterMessage(p, i), q)
  {
    if p.state == Current && p.rcvdMsg && !p.updtInfo {
      var m := MessageVector(p.received, i);
      if p.infoIs == InfoReceived {
        NotInferior(p.portPriority, m);
      }
      if Less(m, p.portPriority) {
        SuperiorMessage(ids, self, peer, port, i, p.portPriority, p.received);
        if isGm {
          FurtherMonotone(m, p.portPriority, p.gmPathPriority);
        }
      }
    }
  }

  // ----- one bridge

  lemma DisabledRun(p: Port, i: nat, masterSteps: nat, gmPresent: bool)
    requires !p.enabled && p.state == Disabled
    ensures RunInfo(p, i, masterSteps, gmPresent) == p
  {
  }

  /** The first run of a port that became enabled. */
  lemma EnabledRun(p: Port, i: nat, masterSteps: nat, gmPresent: bool)
    requires p.enabled && p.state == Disabled
    ensures RunInfo(p, i, masterSteps, gmPresent) == EnterInfo(p, i, masterSteps, Aged)
  {
    var q := InfoPass(p, i, masterSteps, gmPresent);
    assert q == EnterInfo(p, i, masterSteps, Aged);
    assert InfoPass(q, i, masterSteps, gmPresent) == q;
    assert RunInfo(q, i, masterSteps, gmPresent) == q;
  }

  /** The facts about the chosen grandmaster that an update relies on. */
  ghost predicate Announceable(ids: seq<nat>, self: nat, gm: Vector, system: Vector, steps: nat, i: nat, p: Port)
    requires self < |ids|
  {
    && steps == gm.steps <= 256 && PairAtMost(gm.root, steps, ids[self], 0)
    && p.masterPriority == MasterVector(gm, system, i)
  }

  /** One port through a run, when its link invariant holds. */
  lemma PortThroughRun(ids: seq<nat>, self: nat, chosen: bool, isGm: bool, gm: Vector, system: Vector, steps: nat,
                       i: nat, p: Port, gmPresent: bool, peer: nat, port: nat, xr: nat, xs: nat, q: seq<Announce>)
    requires self < |ids| && peer < |ids| && ClockOf(ids[self]) != ClockOf(ids[peer])
    requires PortOk(ids, self, chosen, isGm, gm.root, steps, p) && LinkOk(ids, peer, port, xr, xs, i, p, q)
    requires chosen ==> Announceable(ids, self, gm, system, steps, i, p)
    ensures var r := RunInfo(p, i, steps, gmPresent);
      && PortOk(ids, self, chosen, isGm, gm.root, steps, r)
      && LinkOk(ids, peer, port, xr, xs, i, r, q)
      && r.gmPathPriority == p.gmPathPriority && r.masterPriority == p.masterPriority
  {
    if !p.enabled {
      DisabledRun(p, i, steps, gmPresent);
    } else if p.state == Disabled {
      EnabledRun(p, i, steps, gmPresent);
    } else {
      EnabledThroughRun(ids, self, chosen, isGm, gm, system, steps, i, p, gmPresent, peer, port, xr, xs, q);
    }
  }

  lemma EnabledThroughRun(ids: seq<nat>, self: nat, chosen: bool, isGm: bool, gm: Vector, system: Vector, steps: nat,
                          i: nat, p: Port, gmPresent: bool, peer: nat, port: nat, xr: nat, xs: nat, q: seq<Announce>)
    requires self < |ids| && peer < |ids| && ClockOf(ids[self]) != ClockOf(ids[peer])
    requires PortOk(ids, self, chosen, isGm, gm.root, steps, p) && LinkOk(ids, peer, port, xr, xs, i, p, q)
    requires chosen ==> Announceable(ids, self, gm, system, steps, i, p)
    requires p.enabled && p.state != Disabled
    ensures var r := RunInfo(p, i, steps, gmPresent);
      && PortOk(ids, self, chosen, isGm, gm.root, steps, r)
      && LinkOk(ids, peer, port, xr, xs, i, r, q)
      && r.gmPathPriority == p.gmPathPriority && r.masterPriority == p.masterPriority
  {
    var u := AfterUpdate(p, steps);
    RunClosedForm(p, i, steps, gmPresent);
    if p.selected && p.updtInfo {
      UpdateKeepsPort(ids, self, isGm, gm, system, i, p);
      UpdateKeepsLink(ids, peer, port, xr, xs, i, p, steps, q);
    }
    MessageKeepsPort(ids, self, peer, port, chosen, isGm, gm.root, steps, xr, xs, i, u, q);
    MessageKeepsPaths(u, i);
  }

  lemma UpdateKeepsLink(ids: seq<nat>, peer: nat, port: nat, xr: nat, xs: nat, i: nat, p: Port, steps: nat,
                        q: seq<Announce>)
    requires peer < |ids| && LinkOk(ids, peer, port, xr, xs, i, p, q)
    ensures LinkOk(ids, peer, port, xr, xs, i, AfterUpdate(p, steps), q)
  {
  }

  lemma MessageKeepsPaths(p: Port, i: nat)
    ensures AfterMessage(p, i).gmPathPriority == p.gmPathPriority
    ensures AfterMessage(p, i).masterPriority == p.masterPriority
  {
  }

  lemma RunKeepsPort(ids: seq<nat>, self: nat, b: Bridge, i: nat, peer: nat, port: nat, xr: nat, xs: nat,
                     q: seq<Announce>)
    requires self < |ids| && BridgeOk(ids, self, b) && i < |b.ports|
    requires peer < |ids| && ClockOf(ids[self]) != ClockOf(ids[peer])
    requires LinkOk(ids, peer, port, xr, xs, i, b.ports[i], q)
    ensures var p, r := b.ports[i], RunPort(b, i).ports[i];
      && PortOk(ids, self, b.gm != LastGm, b.gm == PathGm(i), GmVector(b).root, b.masterSteps, r)
      && LinkOk(ids, peer, port, xr, xs, i, r, q)
      && r.gmPathPriority == p.gmPathPriority && r.masterPriority == p.masterPriority
  {
    PortThroughRun(ids, self, b.gm != LastGm, b.gm == PathGm(i), GmVector(b), b.system, b.masterSteps, i, b.ports[i],
                   b.gmPresent, peer, port, xr, xs, q);
  }

  /** A port without a peer only ever updates. */
  lemma RunKeepsOpenPort(ids: seq<nat>, self: nat, b: Bridge, i: nat)
    requires self < |ids| && BridgeOk(ids, self, b) && i < |b.ports|
    requires !b.ports[i].rcvdMsg && b.ports[i].infoIs != InfoReceived
    ensures var p, r := b.ports[i], RunPort(b, i).ports[i];
      && PortOk(ids, self, b.gm != LastGm, b.gm == PathGm(i), GmVector(b).root, b.masterSteps, r)
      && !r.rcvdMsg && r.infoIs != InfoReceived
      && r.gmPathPriority == p.gmPathPriority && r.masterPriority == p.masterPriority
  {
    var p := b.ports[i];
    if !p.enabled {
      DisabledRun(p, i, b.masterSteps, b.gmPresent);
    } else if p.state == Disabled {
      EnabledRun(p, i, b.masterSteps, b.gmPresent);
    } else {
      EnabledOpenRun(ids, self, b.gm != LastGm, b.gm == PathGm(i), GmVector(b), b.system, b.masterSteps, i, p,
                     b.gmPresent);
    }
  }

  lemma EnabledOpenRun(ids: seq<nat>, self: nat, chosen: bool, isGm: bool, gm: Vector, system: Vector, steps: nat,
                       i: nat, p: Port, gmPresent: bool)
    requires self < |ids| && PortOk(ids, self, chosen, isGm, gm.root, steps, p)
    requires chosen ==> Announceable(ids, self, gm, system, steps, i, p)
    requires p.enabled && p.state != Disabled && !p.rcvdMsg && p.infoIs != InfoReceived
    ensures var r := RunInfo(p, i, steps, gmPresent);
      && PortOk(ids, self, chosen, isGm, gm.root, steps, r)
      && !r.rcvdMsg && r.infoIs != InfoReceived
      && r.gmPathPriority == p.gmPathPriority && r.masterPriority == p.masterPriority
  {
    RunClosedForm(p, i, steps, gmPresent);
    assert AfterMessage(AfterUpdate(p, steps), i) == AfterUpdate(p, steps);
    if p.selected && p.updtInfo {
      UpdateKeepsPort(ids, self, isGm, gm, system, i, p);
    }
  }

  // ----- role selection

  /** A path further than the bridge's own grandmaster is no candidate. */
  lemma MineNotBetter(ids: seq<nat>, self: nat, chosen: bool, isGm: bool, gm: Vector, p: Port)
    requires self < |ids| && PortOk(ids, self, chosen, isGm, gm.root, gm.steps, p) && p.infoIs == InfoMine
    ensures !AtMost(OneStepFurther(p.portPriority), gm)
  {
  }

  lemma NothingNotBetter(system: Vector)
    requires system.root < ROOTS && ClockOf(system.root) != ClockOf(NOTHING.root)
    ensures !Less(OneStepFurther(NOTHING), system) && !Less(NOTHING, system)
  {
  }

  /** What a winning port offers. */
  lemma WinnerOffers(b: Bridge, k: nat)
    requires k < |b.ports| && UpdtRoles(b).gm == PathGm(k) && b.system.root < ROOTS
    ensures GmVector(UpdtRoles(b)) == OneStepFurther(b.ports[k].portPriority)
    ensures b.ports[k].portPriority != NOTHING
  {
    GmSelected(b);
    RolesSelected(b, k);
    WinningSteps(b, k);
    var path := UpdtRoles(b).ports[k].gmPathPriority;
    assert Foreign(b.system, UpdtRoles(b).ports[k]) && Less(path, b.system);
    if path.root == NOTHING.root {
      NothingNotBetter(b.system);
    }
  }

  /** Among the ports of a sound bridge only one that holds received information can win. */
  lemma WinnerReceived(ids: seq<nat>, self: nat, b: Bridge, k: nat)
    requires self < |ids| && BridgeOk(ids, self, b) && ids[self] < ROOTS && ForeignRoots(ids, self, b)
    requires k < |b.ports| && UpdtRoles(b).gm == PathGm(k)
    ensures b.ports[k].infoIs == InfoReceived
  {
    WinnerOffers(b, k);
    var p := b.ports[k];
    assert PortOk(ids, self, b.gm != LastGm, b.gm == PathGm(k), GmVector(b).root, b.masterSteps, p);
    if p.infoIs == InfoMine {
      OldGmStillOffered(ids, self, b);
      MineNotBetter(ids, self, b.gm != LastGm, b.gm == PathGm(k), GmVector(b), p);
    }
  }

  /** The grandmaster of the last selection is still a candidate, or beaten by one. */
  lemma OldGmStillOffered(ids: seq<nat>, self: nat, b: Bridge)
    requires self < |ids| && BridgeOk(ids, self, b) && b.gm != LastGm && ForeignRoots(ids, self, b)
    ensures AtMost(GmVector(UpdtRoles(b)), GmVector(b))
  {
    GmSelected(b);
    if b.gm.PathGm? {
      var q := b.gm.port;
      RolesSelected(b, q);
      assert PortOk(ids, self, true, true, GmVector(b).root, b.masterSteps, b.ports[q]);
      var r := UpdtRoles(b);
      assert Foreign(b.system, r.ports[q]);
      AtMostTransitive(GmVector(r), r.ports[q].gmPathPriority, GmVector(b));
    }
  }

  lemma AtMostTransitive(a: Vector, b: Vector, c: Vector)
    requires AtMost(a, b) && AtMost(b, c)
    ensures AtMost(a, c)
  {
  }

  /** Received information never names this bridge as its root. */
  ghost predicate ForeignRoots(ids: seq<nat>, self: nat, b: Bridge)
    requires self < |ids|
  {
    forall i :: 0 <= i < |b.ports| && b.ports[i].infoIs == InfoReceived ==>
      ClockOf(b.ports[i].portPriority.root) != ClockOf(ids[self])
  }

  /** What a winning path says. */
  lemma WinningPath(ids: seq<nat>, self: nat, b: Bridge, k: nat)
    requires self < |ids| && BridgeOk(ids, self, b) && ids[self] < ROOTS && ForeignRoots(ids, self, b)
    requires k < |b.ports| && UpdtRoles(b).gm == PathGm(k)
    ensures var r := UpdtRoles(b);
      && b.ports[k].infoIs == InfoReceived && r.masterSteps == GmVector(r).steps
      && KnownRoot(ids, self, GmVector(r).root, r.masterSteps)
  {
    WinnerReceived(ids, self, b, k);
    assert PortOk(ids, self, b.gm != LastGm, b.gm == PathGm(k), GmVector(b).root, b.masterSteps, b.ports[k]);
    WinningVector(b, k);
  }

  /** The vector of a winning path, which was usable since it beats the system's. */
  lemma WinningVector(b: Bridge, k: nat)
    requires k < |b.ports| && UpdtRoles(b).gm == PathGm(k) && b.system.root < ROOTS && Timely(b.ports[k])
    ensures GmVector(UpdtRoles(b)) == OneStepFurther(b.ports[k].portPriority)
    ensures UpdtRoles(b).masterSteps == (b.ports[k].messagePriority.steps + 1) % 65536
  {
    RolesSelected(b, k);
    WinningSteps(b, k);
  }

  lemma WinningSteps(b: Bridge, k: nat)
    requires k < |b.ports| && UpdtRoles(b).gm == PathGm(k)
    ensures UpdtRoles(b).masterSteps == (b.ports[k].messagePriority.steps + 1) % 65536
    ensures k < |UpdtRoles(b).ports| && GmVector(UpdtRoles(b)) == UpdtRoles(b).ports[k].gmPathPriority
  {
  }

  /** A selection never makes the grandmaster worse, and establishes the bridge invariant for
      the new one. */
  lemma SelectionGm(ids: seq<nat>, self: nat, b: Bridge)
    requires self < |ids| && BridgeOk(ids, self, b) && ids[self] < ROOTS && ForeignRoots(ids, self, b)
    ensures var r := UpdtRoles(b);
      && r.gm != LastGm && AtMost(GmVector(r), GmVector(b))
      && r.masterSteps == GmVector(r).steps && KnownRoot(ids, self, GmVector(r).root, r.masterSteps)
      && AtMost(GmVector(r), b.system)
      && (r.gm.PathGm? ==> r.gm.port < |r.ports| && b.ports[r.gm.port].infoIs == InfoReceived)
  {
    GmSelected(b);
    var r := UpdtRoles(b);
    if r.gm.PathGm? {
      WinningPath(ids, self, b, r.gm.port);
    } else {
      OwnVector(b);
    }
    if b.gm != LastGm {
      OldGmStillOffered(ids, self, b);
    } else {
      AtMostTransitive(GmVector(r), b.system, NOTHING);
    }
  }

  lemma OwnVector(b: Bridge)
    requires UpdtRoles(b).gm == SystemGm
    ensures UpdtRoles(b).masterSteps == 0 && GmVector(UpdtRoles(b)) == b.system
  {
  }

  /** One port across a selection. */
  lemma SelectionPort(ids: seq<nat>, self: nat, b: Bridge, i: nat)
    requires self < |ids| && BridgeOk(ids, self, b) && ids[self] < ROOTS && ForeignRoots(ids, self, b)
    requires i < |b.ports|
    ensures var r := UpdtRoles(b);
      && |r.ports| == |b.ports|
      && PortOk(ids, self, true, r.gm == PathGm(i), GmVector(r).root, r.masterSteps, r.ports[i])
      && r.ports[i].masterPriority == MasterVector(GmVector(r), r.system, i)
      && KeepsInfo(b.ports[i], r.ports[i])
  {
    RolesSelected(b, i);
    UpdtKeeps(b, i);
    SelectionGm(ids, self, b);
    var r := UpdtRoles(b);
    assert PortOk(ids, self, b.gm != LastGm, b.gm == PathGm(i), GmVector(b).root, b.masterSteps, b.ports[i]);
  }

  lemma DerefSamePaths(gm: Gm, system: Vector, lastGm: Vector, ports: seq<Port>, others: seq<Port>)
    requires |ports| == |others|
    requires forall k :: 0 <= k < |ports| ==> others[k].gmPathPriority == ports[k].gmPathPriority
    ensures Deref(gm, system, lastGm, others) == Deref(gm, system, lastGm, ports)
  {
  }

  lemma UpdtCount(b: Bridge)
    ensures |UpdtRoles(b).ports| == |b.ports|
  {
  }

  /** The bookkeeping around the computation of roles. */
  lemma SelectRolesIsUpdt(b: Bridge)
    ensures var c, r := b.(ports := SetReselect(b.ports, false)), SelectRoles(b);
      && r == UpdtRoles(c).(ports := SetSelected(UpdtRoles(c).ports))
      && |r.ports| == |b.ports| && GmVector(r) == GmVector(UpdtRoles(c)) && GmVector(c) == GmVector(b)
  {
    var c := b.(ports := SetReselect(b.ports, false));
    UpdtCount(c);
    Flagged(b, c, UpdtRoles(c), SelectRoles(b));
  }

  lemma Flagged(b: Bridge, c: Bridge, u: Bridge, r: Bridge)
    requires c == b.(ports := SetReselect(b.ports, false)) && r == u.(ports := SetSelected(u.ports))
    ensures GmVector(r) == GmVector(u) && GmVector(c) == GmVector(b)
  {
    DerefSamePaths(u.gm, u.system, u.lastGm, u.ports, r.ports);
    DerefSamePaths(b.gm, b.system, b.lastGm, b.ports, c.ports);
  }

  lemma ReselectCleared(ids: seq<nat>, self: nat, b: Bridge)
    requires self < |ids| && BridgeOk(ids, self, b) && ForeignRoots(ids, self, b)
    ensures var c := b.(ports := SetReselect(b.ports, false));
      BridgeOk(ids, self, c) && ForeignRoots(ids, self, c) && GmVector(c) == GmVector(b)
  {
    var c := b.(ports := SetReselect(b.ports, false));
    DerefSamePaths(b.gm, b.system, b.lastGm, b.ports, c.ports);
    forall i | 0 <= i < |c.ports|
      ensures PortOk(ids, self, c.gm != LastGm, c.gm == PathGm(i), GmVector(c).root, c.masterSteps, c.ports[i])
    {
      ReselectPort(ids, self, b.gm != LastGm, b.gm == PathGm(i), GmVector(b).root, b.masterSteps, b.ports[i]);
    }
  }

  lemma ReselectPort(ids: seq<nat>, self: nat, chosen: bool, isGm: bool, gr: nat, gs: nat, p: Port)
    requires self < |ids| && PortOk(ids, self, chosen, isGm, gr, gs, p)
    ensures PortOk(ids, self, chosen, isGm, gr, gs, p.(reselect := false))
  {
  }

  /** A role selection keeps the bridge sound, does not make its grandmaster worse, and leaves
      the information of the ports alone. */
  lemma SelectionKeepsBridge(ids: seq<nat>, self: nat, b: Bridge)
    requires self < |ids| && BridgeOk(ids, self, b) && ids[self] < ROOTS && ForeignRoots(ids, self, b)
    ensures var r := RunSelection(b);
      && BridgeOk(ids, self, r) && AtMost(GmVector(r), GmVector(b))
      && PairAtMost(GmVector(r).root, r.masterSteps, GmVector(b).root, b.masterSteps)
      && |r.ports| == |b.ports| && (forall i :: 0 <= i < |b.ports| ==> KeepsInfo(b.ports[i], r.ports[i]))
  {
    if AnyReselect(b.ports) {
      var c := b.(ports := SetReselect(b.ports, false));
      ReselectCleared(ids, self, b);
      SelectRolesIsUpdt(b);
      SelectionGm(ids, self, c);
      var u, r := UpdtRoles(c), SelectRoles(b);
      forall i | 0 <= i < |r.ports|
        ensures PortOk(ids, self, r.gm != LastGm, r.gm == PathGm(i), GmVector(r).root, r.masterSteps, r.ports[i])
        ensures r.ports[i].masterPriority == MasterVector(GmVector(r), r.system, i)
        ensures KeepsInfo(b.ports[i], r.ports[i])
      {
        SelectionPort(ids, self, c, i);
        assert r.ports[i] == u.ports[i].(selected := true);
      }
    }
  }

  // ----- the network

  lemma DistinctClocks(t: Topology, b: nat, c: nat)
    requires ValidTopology(t) && b < |t.ids| && c < |t.ids| && b != c
    ensures ClockOf(t.ids[b]) != ClockOf(t.ids[c])
  {
    if b < c {
      assert ClockOf(t.ids[b]) != ClockOf(t.ids[c]);
    } else {
      assert ClockOf(t.ids[c]) != ClockOf(t.ids[b]);
    }
  }

  lemma ReceivedIsForeign(t: Topology, b: nat, s: Bridge)
    requires ValidTopology(t) && b < |t.ids| && BridgeOk(t.ids, b, s)
    ensures ForeignRoots(t.ids, b, s)
  {
    forall i | 0 <= i < |s.ports| && s.ports[i].infoIs == InfoReceived
      ensures ClockOf(s.ports[i].portPriority.root) != ClockOf(t.ids[b])
    {
      assert PortOk(t.ids, b, s.gm != LastGm, s.gm == PathGm(i), GmVector(s).root, s.masterSteps, s.ports[i]);
      var c :| 0 <= c < |t.ids| && t.ids[c] == s.ports[i].portPriority.root;
      DistinctClocks(t, b, c);
    }
  }

  /** A link stays ordered when the port keeps its information and the peer's announcement
      does not get worse. */
  lemma LinkFollows(ids: seq<nat>, peer: nat, port: nat, xr: nat, xs: nat, yr: nat, ys: nat, i: nat, p: Port, r: Port,
                    q: seq<Announce>)
    requires peer < |ids| && LinkOk(ids, peer, port, xr, xs, i, p, q) && PairAtMost(yr, ys, xr, xs)
    requires r.infoIs == p.infoIs && r.portPriority == p.portPriority && r.rcvdMsg == p.rcvdMsg
    requires r.received == p.received
    ensures LinkOk(ids, peer, port, yr, ys, i, r, q)
  {
  }

  /** The link invariant of an end, for another state of the port and the wire. */
  ghost predicate EndWith(t: Topology, n: Net, b: nat, i: nat, p: Port, q: seq<Announce>)
    requires ValidTopology(t) && Shaped(t, n) && b < |t.peers| && i < |t.peers[b]|
  {
    match t.peers[b][i]
    case Open => q == [] && !p.rcvdMsg && p.infoIs != InfoReceived
    case To(c, j) =>
      assert ValidPeer(t, b, i);
      LinkOk(t.ids, c, j, GmVector(n.bridges[c]).root, n.bridges[c].masterSteps, i, p, q)
  }

  /** One link end, when a bridge is replaced by one that announces no worse. */
  lemma EndFollows(t: Topology, n: Net, b: nat, r: Bridge, c: nat, j: nat)
    requires ValidTopology(t) && Shaped(t, n) && b < |t.ids| && |r.ports| == |t.peers[b]|
    requires PairAtMost(GmVector(r).root, r.masterSteps, GmVector(n.bridges[b]).root, n.bridges[b].masterSteps)
    requires c < |t.peers| && c != b && j < |t.peers[c]| && EndOk(t, n, c, j)
    ensures Shaped(t, SetBridge(n, b, r)) && EndOk(t, SetBridge(n, b, r), c, j)
  {
    assert ValidPeer(t, c, j);
    match t.peers[c][j]
    case Open =>
    case To(d, k) =>
      if d == b {
        LinkFollows(t.ids, d, k, GmVector(n.bridges[b]).root, n.bridges[b].masterSteps, GmVector(r).root, r.masterSteps,
                    j, n.bridges[c].ports[j], n.bridges[c].ports[j], n.wires[c][j]);
      }
  }

  /** Replacing one bridge by one that keeps its ports' information and announces no worse. */
  lemma BridgeReplaced(t: Topology, n: Net, b: nat, r: Bridge)
    requires NetOk(t, n) && b < |t.ids| && BridgeOk(t.ids, b, r) && |r.ports| == |n.bridges[b].ports|
    requires PairAtMost(GmVector(r).root, r.masterSteps, GmVector(n.bridges[b]).root, n.bridges[b].masterSteps)
    requires forall i :: 0 <= i < |r.ports| ==> EndWith(t, n, b, i, r.ports[i], n.wires[b][i])
    ensures NetOk(t, SetBridge(n, b, r))
  {
    var m := SetBridge(n, b, r);
    assert Shaped(t, m);
    forall c, j | 0 <= c < |t.ids| && 0 <= j < |t.peers[c]|
      ensures EndOk(t, m, c, j)
    {
      if c == b {
        OwnEnd(t, n, b, r, j);
      } else {
        EndFollows(t, n, b, r, c, j);
      }
    }
  }

  lemma OwnEnd(t: Topology, n: Net, b: nat, r: Bridge, i: nat)
    requires ValidTopology(t) && Shaped(t, n) && b < |t.ids| && |r.ports| == |t.peers[b]|
    requires i < |t.peers[b]| && EndWith(t, n, b, i, r.ports[i], n.wires[b][i])
    ensures Shaped(t, SetBridge(n, b, r)) && EndOk(t, SetBridge(n, b, r), b, i)
  {
    assert ValidPeer(t, b, i);
  }

  lemma SelectStep(t: Topology, n: Net, b: nat)
    requires NetOk(t, n) && b < |t.ids|
    ensures NetOk(t, SetBridge(n, b, RunSelection(n.bridges[b])))
    ensures AtMost(GmVector(RunSelection(n.bridges[b])), GmVector(n.bridges[b]))
  {
    var s := n.bridges[b];
    ReceivedIsForeign(t, b, s);
    SelectionKeepsBridge(t.ids, b, s);
    var r := RunSelection(s);
    forall i | 0 <= i < |r.ports|
      ensures EndWith(t, n, b, i, r.ports[i], n.wires[b][i])
    {
      assert EndOk(t, n, b, i) && KeepsInfo(s.ports[i], r.ports[i]) && ValidPeer(t, b, i);
      match t.peers[b][i]
      case Open =>
      case To(c, j) =>
        LinkFollows(t.ids, c, j, GmVector(n.bridges[c]).root, n.bridges[c].masterSteps, GmVector(n.bridges[c]).root,
                    n.bridges[c].masterSteps, i, s.ports[i], r.ports[i], n.wires[b][i]);
    }
    BridgeReplaced(t, n, b, r);
  }

  lemma ReceivedPort(ids: seq<nat>, self: nat, chosen: bool, isGm: bool, gr: nat, gs: nat, p: Port, a: Announce,
                     ok: bool)
    requires self < |ids| && PortOk(ids, self, chosen, isGm, gr, gs, p) && (ok ==> p.enabled)
    ensures PortOk(ids, self, chosen, isGm, gr, gs, p.(received := a, rcvdMsg := ok))
  {
  }

  /** A port replaced by a sound one with the same vectors leaves the bridge sound. */
  lemma PortReplaced(ids: seq<nat>, self: nat, b: Bridge, i: nat, p: Port, path: seq<nat>)
    requires self < |ids| && BridgeOk(ids, self, b) && i < |b.ports|
    requires PortOk(ids, self, b.gm != LastGm, b.gm == PathGm(i), GmVector(b).root, b.masterSteps, p)
    requires p.gmPathPriority == b.ports[i].gmPathPriority && p.masterPriority == b.ports[i].masterPriority
    ensures var r := b.(ports := b.ports[i := p], pathTrace := path);
      BridgeOk(ids, self, r) && GmVector(r) == GmVector(b)
  {
    var r := b.(ports := b.ports[i := p], pathTrace := path);
    assert GmVector(r) == GmVector(b);
  }

  /** Receiving puts a frame into the port; the bridge announces what it did before. */
  lemma ReceiveKeepsBridge(ids: seq<nat>, self: nat, b: Bridge, i: nat, a: Announce)
    requires self < |ids| && BridgeOk(ids, self, b) && i < |b.ports|
    ensures var r := ReceiveAnnounce(b, i, a);
      && BridgeOk(ids, self, r) && GmVector(r) == GmVector(b) && r.masterSteps == b.masterSteps
      && |r.ports| == |b.ports|
      && (forall k :: 0 <= k < |b.ports| && k != i ==> r.ports[k] == b.ports[k])
      && r.ports[i] == b.ports[i].(received := a, rcvdMsg := b.ports[i].enabled && Qualified(a, b.system))
  {
    var r := ReceiveAnnounce(b, i, a);
    ReceivedPort(ids, self, b.gm != LastGm, b.gm == PathGm(i), GmVector(b).root, b.masterSteps, b.ports[i], a,
                 b.ports[i].enabled && Qualified(a, b.system));
    PortReplaced(ids, self, b, i, r.ports[i], r.pathTrace);
  }

  /** The oldest frame moves from the link into the port. */
  lemma LinkDelivers(ids: seq<nat>, peer: nat, port: nat, xr: nat, xs: nat, i: nat, p: Port, q: seq<Announce>, ok: bool)
    requires peer < |ids| && LinkOk(ids, peer, port, xr, xs, i, p, q) && q != []
    requires ok ==> q[0].steps <= 255
    ensures LinkOk(ids, peer, port, xr, xs, i, p.(received := q[0], rcvdMsg := ok), q[1..])
  {
  }

  lemma EndDelivers(t: Topology, n: Net, b: nat, i: nat, p: Port, ok: bool)
    requires ValidTopology(t) && Shaped(t, n) && b < |t.peers| && i < |t.peers[b]| && EndOk(t, n, b, i)
    requires p == n.bridges[b].ports[i] && n.wires[b][i] != [] && (ok ==> n.wires[b][i][0].steps <= 255)
    ensures EndWith(t, n, b, i, p.(received := n.wires[b][i][0], rcvdMsg := ok), n.wires[b][i][1..])
  {
    assert ValidPeer(t, b, i);
    match t.peers[b][i]
    case Open => assert false;
    case To(d, k) =>
      LinkDelivers(t.ids, d, k, GmVector(n.bridges[d]).root, n.bridges[d].masterSteps, i, p, n.wires[b][i], ok);
  }

  lemma DeliverStep(t: Topology, n: Net, b: nat, i: nat)
    requires NetOk(t, n) && b < |t.ids| && i < |t.peers[b]| && n.wires[b][i] != []
    ensures NetOk(t, Step(t, n, Deliver(b, i)))
    ensures GmVector(ReceiveAnnounce(n.bridges[b], i, n.wires[b][i][0])) == GmVector(n.bridges[b])
  {
    var s, q := n.bridges[b], n.wires[b][i];
    var r := ReceiveAnnounce(s, i, q[0]);
    ReceiveKeepsBridge(t.ids, b, s, i, q[0]);
    EndDelivers(t, n, b, i, s.ports[i], s.ports[i].enabled && Qualified(q[0], s.system));
    PortAndWireReplaced(t, n, b, i, r, q[1..]);
  }

  /** The link invariant of one end only looks at its port, its wire and what the peer announces. */
  lemma EndUnmoved(t: Topology, n: Net, m: Net, c: nat, j: nat)
    requires ValidTopology(t) && Shaped(t, n) && Shaped(t, m) && c < |t.peers| && j < |t.peers[c]| && EndOk(t, n, c, j)
    requires m.bridges[c].ports[j] == n.bridges[c].ports[j] && m.wires[c][j] == n.wires[c][j]
    requires t.peers[c][j].To? ==>
      (assert ValidPeer(t, c, j); var d := t.peers[c][j].bridge;
       GmVector(m.bridges[d]) == GmVector(n.bridges[d]) && m.bridges[d].masterSteps == n.bridges[d].masterSteps)
    ensures EndOk(t, m, c, j)
  {
  }

  lemma BridgesReplaced(ids: seq<nat>, bridges: seq<Bridge>, b: nat, r: Bridge, others: seq<Bridge>)
    requires |ids| == |bridges| && b < |ids| && BridgeOk(ids, b, r) && others == bridges[b := r]
    requires forall c :: 0 <= c < |ids| ==> BridgeOk(ids, c, bridges[c])
    ensures forall c :: 0 <= c < |ids| ==> BridgeOk(ids, c, others[c])
  {
  }

  /** The end whose port and wire are replaced. */
  lemma EndReplaced(t: Topology, n: Net, m: Net, b: nat, i: nat, p: Port, w: seq<Announce>)
    requires ValidTopology(t) && Shaped(t, n) && Shaped(t, m) && b < |t.peers| && i < |t.peers[b]|
    requires m.bridges[b].ports[i] == p && m.wires[b][i] == w && EndWith(t, n, b, i, p, w)
    requires forall d :: 0 <= d < |t.peers| ==>
      GmVector(m.bridges[d]) == GmVector(n.bridges[d]) && m.bridges[d].masterSteps == n.bridges[d].masterSteps
    ensures EndOk(t, m, b, i)
  {
    assert ValidPeer(t, b, i);
  }

  /** Replacing one port and the wire into it. */
  lemma PortAndWireReplaced(t: Topology, n: Net, b: nat, i: nat, r: Bridge, w: seq<Announce>)
    requires NetOk(t, n) && b < |t.ids| && BridgeOk(t.ids, b, r) && |r.ports| == |t.peers[b]| && i < |t.peers[b]|
    requires GmVector(r) == GmVector(n.bridges[b]) && r.masterSteps == n.bridges[b].masterSteps
    requires forall k :: 0 <= k < |r.ports| && k != i ==> r.ports[k] == n.bridges[b].ports[k]
    requires EndWith(t, n, b, i, r.ports[i], w)
    ensures NetOk(t, SetWire(SetBridge(n, b, r), b, i, w))
  {
    var m := SetWire(SetBridge(n, b, r), b, i, w);
    BridgesReplaced(t.ids, n.bridges, b, r, m.bridges);
    OthersUntouched(t, n, b, i, r, w);
    EndsReplaced(t, n, m, b, i, r.ports[i], w);
  }

  lemma OthersUntouched(t: Topology, n: Net, b: nat, i: nat, r: Bridge, w: seq<Announce>)
    requires Shaped(t, n) && b < |t.peers| && |r.ports| == |t.peers[b]| && i < |t.peers[b]|
    requires GmVector(r) == GmVector(n.bridges[b]) && r.masterSteps == n.bridges[b].masterSteps
    requires forall k :: 0 <= k < |r.ports| && k != i ==> r.ports[k] == n.bridges[b].ports[k]
    ensures var m := SetWire(SetBridge(n, b, r), b, i, w);
      && Shaped(t, m) && m.bridges[b].ports[i] == r.ports[i] && m.wires[b][i] == w
      && (forall d :: 0 <= d < |t.peers| ==>
            GmVector(m.bridges[d]) == GmVector(n.bridges[d]) && m.bridges[d].masterSteps == n.bridges[d].masterSteps)
      && (forall c, j :: 0 <= c < |t.peers| && 0 <= j < |t.peers[c]| && !(c == b && j == i) ==>
            m.bridges[c].ports[j] == n.bridges[c].ports[j] && m.wires[c][j] == n.wires[c][j])
  {
  }

  lemma EndsReplaced(t: Topology, n: Net, m: Net, b: nat, i: nat, p: Port, w: seq<Announce>)
    requires ValidTopology(t) && Shaped(t, n) && Shaped(t, m) && b < |t.peers| && i < |t.peers[b]|
    requires m.bridges[b].ports[i] == p && m.wires[b][i] == w && EndWith(t, n, b, i, p, w)
    requires forall d :: 0 <= d < |t.peers| ==>
      GmVector(m.bridges[d]) == GmVector(n.bridges[d]) && m.bridges[d].masterSteps == n.bridges[d].masterSteps
    requires forall c, j :: 0 <= c < |t.ids| && 0 <= j < |t.peers[c]| ==> EndOk(t, n, c, j)
    requires forall c, j :: 0 <= c < |t.ids| && 0 <= j < |t.peers[c]| && !(c == b && j == i) ==>
      m.bridges[c].ports[j] == n.bridges[c].ports[j] && m.wires[c][j] == n.wires[c][j]
    ensures forall c, j :: 0 <= c < |t.ids| && 0 <= j < |t.peers[c]| ==> EndOk(t, m, c, j)
  {
    forall c, j | 0 <= c < |t.ids| && 0 <= j < |t.peers[c]|
      ensures EndOk(t, m, c, j)
    {
      if c != b || j != i {
        assert EndOk(t, n, c, j);
        assert ValidPeer(t, c, j);
        EndUnmoved(t, n, m, c, j);
      } else {
        EndReplaced(t, n, m, b, i, p, w);
      }
    }
  }

  /** A frame is appended behind everything that is on its way. */
  lemma LinkCarries(ids: seq<nat>, peer: nat, port: nat, xr: nat, xs: nat, i: nat, p: Port, q: seq<Announce>,
                    a: Announce)
    requires peer < |ids| && LinkOk(ids, peer, port, xr, xs, i, p, q)
    requires FromPeer(ids, peer, port, a) && a.root == xr && a.steps == xs
    ensures LinkOk(ids, peer, port, xr, xs, i, p, q + [a])
  {
  }

  /** What a bridge that chose a grandmaster announces. */
  lemma AnnounceFromPeer(ids: seq<nat>, self: nat, b: Bridge, i: nat)
    requires self < |ids| && BridgeOk(ids, self, b) && b.gm != LastGm
    ensures FromPeer(ids, self, i, AnnounceOf(b, i))
  {
  }

  lemma SendStep(t: Topology, n: Net, b: nat, i: nat)
    requires NetOk(t, n) && b < |t.ids| && i < |t.peers[b]| && n.bridges[b].ports[i].role == Master && t.peers[b][i].To?
    ensures NetOk(t, Step(t, n, Send(b, i)))
  {
    assert ValidPeer(t, b, i);
    var c, j := t.peers[b][i].bridge, t.peers[b][i].port;
    var s, a := n.bridges[b], AnnounceOf(n.bridges[b], i);
    assert EndOk(t, n, c, j);
    assert PortOk(t.ids, b, s.gm != LastGm, s.gm == PathGm(i), GmVector(s).root, s.masterSteps, s.ports[i]);
    AnnounceFromPeer(t.ids, b, s, i);
    LinkCarries(t.ids, b, i, GmVector(s).root, s.masterSteps, j, n.bridges[c].ports[j], n.wires[c][j], a);
    PortAndWireReplaced(t, n, c, j, n.bridges[c], n.wires[c][j] + [a]);
    assert SetBridge(n, c, n.bridges[c]) == n;
  }

  /** The run of a port machine, as it leaves the port and the link into it. */
  lemma RunKeepsEnd(t: Topology, n: Net, b: nat, i: nat)
    requires NetOk(t, n) && b < |t.ids| && i < |t.peers[b]|
    ensures var s, p, r := n.bridges[b], n.bridges[b].ports[i], RunPort(n.bridges[b], i).ports[i];
      && PortOk(t.ids, b, s.gm != LastGm, s.gm == PathGm(i), GmVector(s).root, s.masterSteps, r)
      && EndWith(t, n, b, i, r, n.wires[b][i])
      && r.gmPathPriority == p.gmPathPriority && r.masterPriority == p.masterPriority
  {
    var s := n.bridges[b];
    assert EndOk(t, n, b, i) && ValidPeer(t, b, i);
    match t.peers[b][i]
    case Open => RunKeepsOpenPort(t.ids, b, s, i);
    case To(c, j) =>
      DistinctClocks(t, b, c);
      RunKeepsPort(t.ids, b, s, i, c, j, GmVector(n.bridges[c]).root, n.bridges[c].masterSteps, n.wires[b][i]);
  }

  lemma RunStep(t: Topology, n: Net, b: nat, i: nat)
    requires NetOk(t, n) && b < |t.ids| && i < |t.peers[b]|
    ensures NetOk(t, SetBridge(n, b, RunPort(n.bridges[b], i)))
    ensures GmVector(RunPort(n.bridges[b], i)) == GmVector(n.bridges[b])
  {
    var s, r := n.bridges[b], RunPort(n.bridges[b], i);
    RunKeepsEnd(t, n, b, i);
    PortReplaced(t.ids, b, s, i, r.ports[i], s.pathTrace);
    PortAndWireReplaced(t, n, b, i, r, n.wires[b][i]);
    SameWire(SetBridge(n, b, r), b, i);
  }

  lemma EnableStep(t: Topology, n: Net, b: nat, i: nat)
    requires NetOk(t, n) && b < |t.ids| && i < |t.peers[b]|
    ensures NetOk(t, SetBridge(n, b, EnablePort(n.bridges[b], i)))
    ensures GmVector(EnablePort(n.bridges[b], i)) == GmVector(n.bridges[b])
  {
    var s := n.bridges[b];
    var r := EnablePort(s, i);
    assert EndOk(t, n, b, i);
    EnabledEnd(t, n, b, i);
    EnabledPort(t.ids, b, s.gm != LastGm, s.gm == PathGm(i), GmVector(s).root, s.masterSteps, s.ports[i]);
    PortReplaced(t.ids, b, s, i, r.ports[i], s.pathTrace);
    PortAndWireReplaced(t, n, b, i, r, n.wires[b][i]);
    SameWire(SetBridge(n, b, r), b, i);
  }

  lemma SameWire(n: Net, b: nat, i: nat)
    requires HasPort(n, b, i)
    ensures SetWire(n, b, i, n.wires[b][i]) == n
  {
    var row := n.wires[b];
    assert row[i := row[i]] == row;
    assert n.wires[b := row] == n.wires;
  }

  lemma EnabledEnd(t: Topology, n: Net, b: nat, i: nat)
    requires ValidTopology(t) && Shaped(t, n) && b < |t.peers| && i < |t.peers[b]| && EndOk(t, n, b, i)
    ensures EndWith(t, n, b, i, n.bridges[b].ports[i].(enabled := true), n.wires[b][i])
  {
  }

  lemma EnabledPort(ids: seq<nat>, self: nat, chosen: bool, isGm: bool, gr: nat, gs: nat, p: Port)
    requires self < |ids| && PortOk(ids, self, chosen, isGm, gr, gs, p)
    ensures PortOk(ids, self, chosen, isGm, gr, gs, p.(enabled := true))
  {
  }

  /** One step of the network: the invariant holds again, and no grandmaster got worse. */
  lemma StepSafe(t: Topology, n: Net, a: Action)
    requires NetOk(t, n)
    ensures NetOk(t, Step(t, n, a))
    ensures forall b :: 0 <= b < |t.ids| ==> AtMost(GmVector(Step(t, n, a).bridges[b]), GmVector(n.bridges[b]))
  {
    match a
    case Send(b, i) =>
      if Step(t, n, a) != n { SendStep(t, n, b, i); }
    case Deliver(b, i) =>
      if HasPort(n, b, i) && n.wires[b][i] != [] { DeliverStep(t, n, b, i); }
    case RunMachine(b, i) =>
      if HasPort(n, b, i) { RunStep(t, n, b, i); }
    case Select(b) =>
      if b < |n.bridges| { SelectStep(t, n, b); }
    case Enable(b, i) =>
      if HasPort(n, b, i) { EnableStep(t, n, b, i); }
  }

  // ----- whole runs

  lemma InitialPortOk(ids: seq<nat>, self: nat, i: nat, p: Port)
    requires self < |ids| && Timely(p) && p == InitialPort(p.enabled, p.timers, i)
    ensures PortOk(ids, self, false, false, NOTHING.root, 0, p)
    ensures p.infoIs != InfoReceived && !p.rcvdMsg && p.role == RoleDisabled
  {
    var z := PoweredUp(p.enabled, p.timers);
    var d := InfoPass(z, i, 0, false);
    assert d == EnterDisabled(z);
    assert RunInfo(z, i, 0, false) == RunInfo(d, i, 0, false);
    if p.enabled {
      var a := InfoPass(d, i, 0, false);
      assert RunInfo(a, i, 0, false) == a;
    }
  }

  lemma InitialBridgeOk(ids: seq<nat>, self: nat, b: Bridge)
    requires self < |ids| && InitialBridge(ids[self], b)
    ensures BridgeOk(ids, self, b)
    ensures forall i :: 0 <= i < |b.ports| ==> b.ports[i].infoIs != InfoReceived && !b.ports[i].rcvdMsg
  {
    forall i | 0 <= i < |b.ports|
      ensures PortOk(ids, self, false, false, NOTHING.root, 0, b.ports[i])
      ensures b.ports[i].infoIs != InfoReceived && !b.ports[i].rcvdMsg
    {
      InitialPortOk(ids, self, i, b.ports[i]);
    }
  }

  lemma InitialOk(t: Topology, n: Net)
    requires ValidTopology(t) && Initial(t, n)
    ensures NetOk(t, n)
  {
    forall b | 0 <= b < |t.ids|
      ensures BridgeOk(t.ids, b, n.bridges[b])
      ensures forall i :: 0 <= i < |t.peers[b]| ==> EndOk(t, n, b, i)
    {
      InitialBridgeOk(t.ids, b, n.bridges[b]);
      forall i | 0 <= i < |t.peers[b]|
        ensures EndOk(t, n, b, i)
      {
        assert ValidPeer(t, b, i) && n.wires[b][i] == [];
      }
    }
  }

  /** The invariant holds after every sequence of steps. */
  lemma {:induction false} SafeAlways(t: Topology, n: Net, actions: seq<Action>)
    requires ValidTopology(t) && Initial(t, n)
    ensures NetOk(t, Steps(t, n, actions))
    decreases |actions|
  {
    if actions == [] {
      InitialOk(t, n);
    } else {
      SafeAlways(t, n, actions[..|actions| - 1]);
      StepSafe(t, Steps(t, n, actions[..|actions| - 1]), actions[|actions| - 1]);
    }
  }

  /** In every run the grandmaster of a bridge is never worse than at any earlier moment. */
  lemma {:induction false} GmNeverWorse(t: Topology, n: Net, actions: seq<Action>, k: nat, b: nat)
    requires ValidTopology(t) && Initial(t, n) && k <= |actions| && b < |t.ids|
    ensures var now, then_ := Steps(t, n, actions), Steps(t, n, actions[..k]);
      && |now.bridges| == |then_.bridges| == |t.ids|
      && AtMost(GmVector(now.bridges[b]), GmVector(then_.bridges[b]))
    decreases |actions|
  {
    SafeAlways(t, n, actions);
    if k == |actions| {
      assert actions[..k] == actions;
    } else {
      var before := actions[..|actions| - 1];
      assert before[..k] == actions[..k];
      SafeAlways(t, n, before);
      GmNeverWorse(t, n, before, k, b);
      StepSafe(t, Steps(t, n, before), actions[|actions| - 1]);
      AtMostTransitive(GmVector(Steps(t, n, actions).bridges[b]), GmVector(Steps(t, n, before).bridges[b]),
                       GmVector(Steps(t, n, actions[..k]).bridges[b]));
    }
  }

  /** No bridge ever adopts a root that no bridge owns, or one better than every bridge's. */
  lemma RootsKnown(t: Topology, n: Net, actions: seq<Action>, b: nat, least: nat)
    requires ValidTopology(t) && Initial(t, n) && b < |t.ids|
    requires forall c :: 0 <= c < |t.ids| ==> least <= t.ids[c]
    ensures var s := Steps(t, n, actions);
      && |s.bridges| == |t.ids|
      && least <= GmVector(s.bridges[b]).root
      && (s.bridges[b].gm != LastGm ==> GmVector(s.bridges[b]).root in t.ids)
      && (s.bridges[b].gm != LastGm ==> (GmVector(s.bridges[b]).root == t.ids[b] <==> s.bridges[b].masterSteps == 0))
  {
    SafeAlways(t, n, actions);
    var s := Steps(t, n, actions);
    assert BridgeOk(t.ids, b, s.bridges[b]);
    assert t.ids[b] < ROOTS;
  }

  /** What a bridge announces now. */
  ghost predicate Upstream(n: Net, c: nat, b: nat)
    requires c < |n.bridges| && b < |n.bridges|
  {
    PairLess(GmVector(n.bridges[c]).root, n.bridges[c].masterSteps, GmVector(n.bridges[b]).root,
      n.bridges[b].masterSteps)
  }

  /** Across a slave port, the neighbour's current (root, stepsRemoved) is strictly smaller. */
  lemma SlaveUpstream(t: Topology, n: Net, b: nat, i: nat)
    requires NetOk(t, n) && b < |t.ids| && i < |t.peers[b]| && n.bridges[b].ports[i].role == Slave
    ensures t.peers[b][i].To?
    ensures t.peers[b][i].bridge < |n.bridges| && Upstream(n, t.peers[b][i].bridge, b)
  {
    var s := n.bridges[b];
    assert EndOk(t, n, b, i) && ValidPeer(t, b, i);
    assert BridgeOk(t.ids, b, s);
    assert PortOk(t.ids, b, s.gm != LastGm, s.gm == PathGm(i), GmVector(s).root, s.masterSteps, s.ports[i]);
  }

  /** A chain of bridges, each with a slave port towards the next. */
  ghost predicate SlaveChain(t: Topology, n: Net, chain: seq<nat>)
    requires Shaped(t, n)
  {
    && (forall k :: 0 <= k < |chain| ==> chain[k] < |t.peers|)
    && (forall k :: 0 <= k < |chain| - 1 ==> SlaveTowards(t, n, chain[k], chain[k + 1]))
  }

  ghost predicate SlaveTowards(t: Topology, n: Net, b: nat, c: nat)
    requires Shaped(t, n) && b < |t.peers|
  {
    exists i :: 0 <= i < |t.peers[b]| && n.bridges[b].ports[i].role == Slave && t.peers[b][i].To?
      && t.peers[b][i].bridge == c
  }

  /** Slave ports form no cycle: in every reachable state, a chain of them never comes back to
      where it started. */
  lemma NoSlaveCycle(t: Topology, n: Net, actions: seq<Action>, chain: seq<nat>)
    requires ValidTopology(t) && Initial(t, n) && |chain| >= 2
    requires Shaped(t, Steps(t, n, actions)) && SlaveChain(t, Steps(t, n, actions), chain)
    ensures chain[0] != chain[|chain| - 1]
  {
    SafeAlways(t, n, actions);
    ChainDescends(t, Steps(t, n, actions), chain);
  }

  lemma {:induction false} ChainDescends(t: Topology, n: Net, chain: seq<nat>)
    requires NetOk(t, n) && |chain| >= 2 && SlaveChain(t, n, chain)
    ensures Upstream(n, chain[|chain| - 1], chain[0])
    decreases |chain|
  {
    assert SlaveTowards(t, n, chain[0], chain[1]);
    var i :| 0 <= i < |t.peers[chain[0]]| && n.bridges[chain[0]].ports[i].role == Slave && t.peers[chain[0]][i].To?
             && t.peers[chain[0]][i].bridge == chain[1];
    SlaveUpstream(t, n, chain[0], i);
    if |chain| > 2 {
      var rest := chain[1..];
      forall k | 0 <= k < |rest| - 1
        ensures SlaveTowards(t, n, rest[k], rest[k + 1])
      {
        assert SlaveTowards(t, n, chain[k + 1], chain[k + 2]);
      }
      ChainDescends(t, n, rest);
    }
  }

  /** Why the first tick must come first: a port that has not left BEGIN holds the zeroed
      vector, and any selection adopts it as its grandmaster. */
  lemma SelectingTooEarly(b: Bridge, i: nat)
    requires i < |b.ports| && b.ports[i] == PoweredUp(true, b.ports[i].timers) && Timely(b.ports[i])
    requires ClockOf(b.system.root) != 0
    ensures GmVector(UpdtRoles(b)).root == 0
  {
    GmSelected(b);
    RolesSelected(b, i);
    assert Foreign(b.system, UpdtRoles(b).ports[i]);
  }
}
